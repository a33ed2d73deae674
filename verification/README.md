# Verification of the UDP offload engine

This project models an FPGA UDP offload engine and the drivers that share its ring buffers, and proves
properties of the model with Dafny 4.11. `dafny verify dfyconfig.toml` checks everything.

The hardware modules are modelled cycle by cycle. A datatype holds the registers of a module, a `Next`
function is what one clock edge does to them (all registers change together, as in the synthesised
design), an `Input` holds everything the surroundings drive in that cycle, and a `History` lists what
happened at the interfaces. A `Run` starts at reset and takes any sequence of inputs, so every theorem
about `Run` holds for every valid/ready pattern, every interleaving and every length of run. Blocks the
source writes as clocked statements are classes whose `Clock` method is proved equal to `Next`; the two
engines' classes carry the cycles since reset as ghost state, so that the theorems about runs are
theorems about the objects. Driver code is modelled with the loops and register accesses it has.

| file | models |
|---|---|
| `BurstPlan` | splitting of a transfer into AXI bursts |
| `OutputFifo`, `ReadDma`, `WriteDma`, `WriteDmaProof` | the two DMA engines |
| `ReceivePulses`, `ReceiveStores`, `ReceivePath` | the push pulse, what it finds in memory, and filter, engine, rings and receive routines together |
| `CircularBuffer`, `EdgePulse`, `RegisterFile`, `PopNotify` | ring control, pulses, registers and the drivers' accesses to them |
| `TransmitPath`, `TransmitDelivery` | sender, ring, controller, read engine, slave and header remover together |
| `Interrupt`, `NapiPoll` | interrupt handler, status bit and poll function |
| `HeaderAdder`, `HeaderRemover`, `HeaderHandover`, `Adapter`, `PortFilter`, `Mdio` | stream transformers and the management interface |
| `SlotFormat`, `SlotRoundTrip`, `AddressMap`, `PacketConversion`, `PortList` | slot layout, addresses and pure data conversions |
| `Layout`, `Arithmetic`, `Options`, `Stream`, `LittleEndian`, `Memory`, `AxiResponse` | shared vocabulary |

Seven results are conditions rather than guarantees, because the code does not give the guarantee:

* A payload shorter than eight bytes makes the header remover's unsigned comparison wrap. What it then
  emits is not the payload (`SlotFormat.ShortPayloadStaysOpen`); `HeaderRemover.TrimIsPayloadIff` and
  `SlotFormat.RemoverReadsSlotIff` say exactly when the payload comes out (length at least eight). The
  kernel driver accepts such packets (`PacketConversion.ComposedIsDeliveredIff`,
  `PacketConversion.ShortDatagramIsNotDelivered`).
* The header remover goes on sampling the stream while a header waits to be taken. Headers come out right,
  whatever the stream holds, exactly when each is taken no later than in the first cycle behind its
  packet's last word (`HeaderHandover.HeadersAreRightIff`, `HeaderHandover.LateExampleIsWrong`).
* buffer_select_idx follows every decision of the port filter, and wlast pushes whatever buffer it selects
  by then. The receive path is a FIFO for every port when each decision comes after the wlast before it,
  and no packet is stored while its buffer is full (`ReceivePath.ReceiveIsFifo`); what a push does
  otherwise is said exactly (`ReceivePath.PushIsCountedIff`, `ReceivePath.EarlyDecisionMisfiles`).
* The ring control follows the push and pop pulses exactly when no lone push meets a full buffer and no
  lone pop an empty one (`CircularBuffer.CountFollowsIff`). The receive side does not check; the
  transmit side does, so the transmit theorems need no such hypothesis.
* Driver and hardware addresses agree exactly when the whole region lies below 4 GB
  (`AddressMap.RegionAgreesIff`); the driver only checks where the region starts
  (`AddressMap.LateRegionWraps`).
* The port-list parser undoes the printer exactly when the list is not empty and fits the parameter
  buffer (`PortList.ParserUndoesPrinterIff`).
* The acknowledging write toggles the status bit and swallows a push in the same cycle
  (`Interrupt.AcknowledgeSwallowsPush`); no wake-up is lost all the same (`Interrupt.NoLostWakeUp`),
  because the poll scheduled before the acknowledgement sweeps all buffers.

The comments of `axis_udp_port_filter.v` say that it waits for the end of the previous DMA transfer; the
code does not use that input, and the model follows the code. `udriver.h` gives 1472 bytes as the
largest payload; neither the slot (2008 bytes) nor `udriver_send` enforces that, and the theorems are
stated for what the slot holds.

## Model

| member | source | states |
|---|---|---|
| BurstPlan.TransferIsLargestLegal | hardware/rtl/axi_dma_rd.v:365-384 | the four branches give the largest transfer that stays in the 4 KB page and in the longest burst |
| BurstPlan.TransferIsLegal | hardware/rtl/axi_dma_wr.v:465-483 | every transfer is non-empty, never more than is left, and legal under section A3.4.1 of the AMBA AXI specification |
| BurstPlan.LegalIff | hardware/rtl/axi_dma_wr.v:465-483 | legality as bounds on the byte count, in both directions |
| BurstPlan.PlanCovers | hardware/rtl/axi_dma_wr.v:463-526 | the bursts of a descriptor are contiguous, start and end where it does, and are all legal |
| BurstPlan.PlanPartitions | hardware/rtl/axi_dma_wr.v:463-526 | every byte of a descriptor lies in exactly one burst |
| BurstPlan.PlanIsShortest | hardware/rtl/axi_dma_rd.v:362-405 | no legal covering by beat-aligned bursts has fewer bursts |
| BurstPlan.PlanBeats | hardware/rtl/axi_dma_rd.v:385-392 | an incrementing slave visits exactly the beats of the descriptor, one after the other |
| BurstPlan.SlotIsOneBurst | hardware/rtl/controller_64.v:487-529 | a transfer that starts on a slot and ends inside it is one burst |
| BurstPlan.OneBurstIff | hardware/rtl/axi_dma_wr.v:465-483 | for any bus, exactly which transfers are one burst |
| OutputFifo.StageKeepsOrder | hardware/rtl/axi_dma_wr.v:906-931 | the output FIFO and register deliver what was pushed, in order, for any ready pattern |
| OutputFifo.StageStaysThrottled | hardware/rtl/axi_dma_wr.v:906-931 | with the half-full flag and two cycles of delay no push ever meets a full FIFO |
| OutputFifo.OutputStage.Clock | hardware/rtl/axi_dma_rd.v:657-681 | the clocked block over its array is the specified step |
| ReadDma.ReadIsCorrect | hardware/rtl/axi_dma_rd.v:323-549 | at any time in any run the bursts issued are the first ones of the descriptors' plans and the stream so far has the right tkeep and tlast |
| ReadDma.HalvesAgree | hardware/rtl/axi_dma_rd.v:343-356 | the beats the data machine counts are the beats of the bursts the address machine issues |
| ReadDma.ReadDeliversMemory | hardware/rtl/axi_dma_rd.v:450-549 | every finished frame is exactly the memory its descriptor names, with one tlast |
| ReadDma.ReadReports | hardware/rtl/axi_dma_rd.v:518-538 | reports come in descriptor order with their tags, and say no error exactly when no beat failed |
| ReadDma.ReadEngine.Clock | hardware/rtl/axi_dma_rd.v:552-681 | the clocked registers follow a run from reset, so all theorems about runs hold of the object; after every clock the bursts and the stream so far are what its descriptors ask for |
| WriteDma.CycleSize | hardware/rtl/axi_dma_wr.v:568-577 | the loop finds the number of leading byte lanes of tkeep |
| WriteDmaProof.WriteEngine.Clock | hardware/rtl/axi_dma_wr.v:806-931 | the clocked registers follow a run from reset; after every clock the beats so far store the frames at their descriptors' addresses, whatever memory was before |
| WriteDmaProof.WriteIsCorrect | hardware/rtl/axi_dma_wr.v:432-752 | each frame is consumed through its tlast by one descriptor; at rest memory holds the first min(length, descriptor) bytes of each frame at its address, all else unchanged |
| WriteDmaProof.OnlyDescriptorsAreTouched | hardware/rtl/axi_dma_wr.v:432-752 | at any time, however many beats have arrived, no byte outside the descriptors' ranges has changed |
| WriteDmaProof.WriteReports | hardware/rtl/axi_dma_wr.v:754-785 | reports carry tag and stored length, say no error exactly when no burst of the descriptor failed, and those bursts follow the plan |
| WriteDmaProof.OutstandingBursts | hardware/rtl/axi_dma_wr.v:841-860 | outstanding bursts are the status entries plus the burst being written, never above 32 |
| WriteDmaProof.LastIsOnBurstEnds | hardware/rtl/axi_dma_wr.v:527-732 | wlast is on the last beat of each burst and nowhere else, also when a short frame is padded |
| ReceivePulses.OnePushPerPacket | hardware/rtl/fpga_core_10g.v:590-591 | for slot descriptors the idle engine has made exactly one wlast beat per packet |
| ReceiveStores.WlastFindsFrame | hardware/rtl/fpga_core_10g.v:590-591 | at any time in any run, when wlast passes for the k-th time the k-th frame has ended or filled its descriptor, and its first bytes are at the descriptor's address |
| ReceiveStores.BeatIsConfined | hardware/rtl/axi_dma_wr.v:527-732 | at any time in any run, a beat stores into the slot of the packet whose wlast comes next and nowhere else |
| ReceiveStores.WlastFindsPacket | hardware/rtl/controller_64.v:487-503 | when wlast passes, the slot of its descriptor holds its packet, also while later packets are on their way |
| ReceiveStores.AdderFeeds | hardware/rtl/axis_header_adder.v:76-166 | any part of the header adder's output is images of packets and the beginning of the next |
| CircularBuffer.StepRefinesQueue | hardware/rtl/circular_buffer.v:56-102 | any permitted combination of push and pop, also both at once, is the bounded queue's operation |
| CircularBuffer.CountFollowsIff | hardware/rtl/circular_buffer.v:56-102 | exactly when head, tail, full and empty follow the pulses |
| CircularBuffer.RunIsQueue | hardware/rtl/circular_buffer.v:56-102 | over any permitted run slots are read in write order, each once |
| CircularBuffer.SlotIsModular | hardware/rtl/circular_buffer.v:56-60 | the head is (tail + count) modulo the length |
| CircularBuffer.OverrunForgets | hardware/rtl/circular_buffer.v:78-102 | a lone push into a full buffer makes it look as if it held one entry |
| CircularBuffer.UnderrunInvents | hardware/rtl/circular_buffer.v:78-102 | a lone pop of an empty buffer makes it look nearly full |
| CircularBuffer.Control.Clock | hardware/rtl/circular_buffer.v:56-102 | the four clocked registers move as specified |
| EdgePulse.OnePulsePerRise | hardware/rtl/pulse_on_posedge.v:40-51 | every rising edge makes one pulse cycle, and nothing else does |
| RegisterFile.RxControlAddress | software/userspace/driver/udriver.h:118-119 | drivers and hardware agree on the address of every receive control register |
| RegisterFile.Manager.Clock | hardware/rtl/config_regs_AXI_Manager.v:230-452 | write channel, register, status and enable blocks together are the specified step |
| RegisterFile.AccessWritesOnce | hardware/rtl/config_regs_AXI_Manager.v:230-390 | however long each channel is held up, a write access that completes leaves the registers as one write of its data does, and the channel idle |
| RegisterFile.AcknowledgeTogglesOnce | hardware/rtl/config_regs_AXI_Manager.v:430-445 | an acknowledgement held over any number of cycles without a push toggles the status bit once |
| RegisterFile.Manager.ClockRegisters | hardware/rtl/config_regs_AXI_Manager.v:355-390 | what a byte-strobed write does to each register |
| PopNotify.PulsesAreExact | software/userspace/driver/udriver.c:463-486 | each pop notification makes exactly one pulse on its buffer and none elsewhere; socket bits are what the last status call said; written-back status bits have no effect |
| PopNotify.PopPrecedesCompletion | software/kernel/driver/udp_core_netdev.c:142-183 | the pulse of a notification is over before its last write completes |
| TransmitPath.OneDescriptorOutstanding | hardware/rtl/controller_64.v:509-529 | at most one read descriptor is outstanding; it names the slot at the tail, which is occupied |
| TransmitPath.SlotsAreStable | software/userspace/driver/udriver.c:268-296 | no slot is overwritten before its last word has been read |
| TransmitPath.StreamIsFifo | hardware/rtl/controller_64.v:509-529 | the words that leave the engine are the words of the accepted slots, in order, each once |
| TransmitPath.InvStep | hardware/rtl/controller_64.v:509-529 | every cycle keeps the joint invariant of driver, registers, pulse, ring, controller, engine and slave |
| TransmitDelivery.DeliveryIsFifo | software/kernel/driver/udp_core_netdev.c:376-416 | in every interleaving the frames that leave the header remover are the first of the packets accepted, in order, each once; so are the headers handed over under hdr_valid and hdr_ready, when their consumer takes them on time |
| TransmitDelivery.SlotInProgress | hardware/rtl/axis_header_remover.v:96-188 | the beginning of a slot gives its header once, and its payload at most once |
| Interrupt.NoLostWakeUp | software/kernel/driver/udp_core_irq.c:18-37 | in every interleaving, with no poll due and the status bit clear every open buffer is empty; an idle processor with packets waiting has a poll due or an asserted line |
| Interrupt.AcknowledgeSwallowsPush | hardware/rtl/config_regs_AXI_Manager.v:430-445 | an acknowledgement clears the bit even against a push in the same cycle, and a poll is scheduled then |
| Interrupt.PollEndsDrained | software/kernel/driver/udp_core_netdev.c:488-498 | the poll completes only with all open buffers empty or the status bit set |
| NapiPoll.Device.RxPoll | software/kernel/driver/udp_core_netdev.c:429-501 | terminates within budget; buffers are drained in order with one pop per packet; below budget a full sweep saw every buffer empty; ports are read in turn while allocation succeeds |
| NapiPoll.Device.Visit | software/kernel/driver/udp_core_netdev.c:456-485 | one port: read, and deliver and pop its packet if there is one and an skb for it |
| NapiPoll.ServiceIsFair | software/kernel/driver/udp_core_netdev.c:450-487 | of two buffers that never run empty, neither is served more than one packet ahead |
| NapiPoll.TurnsAreFair | software/kernel/driver/udp_core_netdev.c:450-487 | round robin on the trace of reads, with the exact difference |
| HeaderAdder.AdderRefinesFunction | hardware/rtl/axis_header_adder.v:76-166 | for every valid/ready pattern, also with header inputs that change, the output is every frame behind the five words its header spelt as they went out |
| HeaderAdder.SteadyHeaders | hardware/rtl/axis_header_adder.v:120-140 | with header inputs that stay the same while the words go out, those words are the header that was taken |
| HeaderRemover.RemoverRefinesFunction | hardware/rtl/axis_header_remover.v:88-188 | for every valid/ready pattern the payloads, and the headers as their fifth word is sampled, are the same function of the consumed stream |
| HeaderHandover.HeadersAreRightIff | hardware/rtl/axis_header_remover.v:110-139 | the headers handed over are the packets', in order, each once, for all contents of the stream, exactly when each is taken before the cycle behind its packet's last word is over |
| HeaderHandover.OnTimeIsRight | hardware/rtl/axis_header_remover.v:110-139 | headers taken on time, with the one on show, are those sampled |
| HeaderHandover.LateExampleIsWrong | hardware/rtl/axis_header_remover.v:110-139 | a run in which a header that waits one cycle too long is overwritten |
| HeaderRemover.TrimIsPayloadIff | hardware/rtl/axis_header_remover.v:155-188 | the payload comes out as one frame cut to the length field exactly when that is at least eight |
| SlotFormat.RemoverReadsSlotIff | hardware/rtl/axis_header_remover.v:96-188 | a slot that holds a packet gives back header and payload, exactly when the payload has at least eight bytes |
| SlotFormat.ShortPayloadStaysOpen | hardware/rtl/axis_header_remover.v:155-188 | what comes out instead of a payload of one to seven bytes: one whole word of the slot, without an end |
| SlotFormat.HeaderIsFound | software/userspace/driver/udriver.h:195-203 | the five 64-bit fields the drivers write are the ones the hardware reads |
| SlotRoundTrip.MessageIsImage | hardware/rtl/axis_header_adder.v:90-166 | the adder's output for a packet is the image the drivers would write |
| SlotRoundTrip.WriteStores | hardware/rtl/controller_64.v:487-503 | every run of adder and write engine that has come to rest has stored its packets |
| SlotRoundTrip.SlotHolds | hardware/rtl/controller_64.v:497-503 | a packet whose slot has not been written again is held by it, up to the slot's size |
| SlotRoundTrip.RoundTrip | hardware/rtl/controller_64.v:440-503 | adder, write engine, memory, read engine and remover give back addresses, ports, length and payload (its first 2008 bytes), exactly when the payload has at least eight bytes |
| SlotRoundTrip.ReceiveReadsSlot | software/userspace/driver/udriver.c:298-332 | the driver's receive routine gives back the packet whole if it fits the slot, else its first 2008 bytes |
| ReceivePath.ReceiveIsFifo | software/userspace/driver/udriver.c:298-332 | in every interleaving of filter, engine and the receive routines of all ports, the packets returned for a port are the first the filter admitted for it, in order, each once, and the registers count the others |
| ReceivePath.InvStep | hardware/rtl/controller_64.v:355-361 | every cycle keeps the joint invariant of memory, rings, selection, pending packet and receive routines of all 1024 buffers |
| ReceivePath.PushIsCountedIff | hardware/rtl/controller_64.v:355-361 | after a push the registers count right exactly when buffer_select_idx still selects the packet's buffer and that is not full, or popped in the same cycle |
| ReceivePath.EarlyDecisionMisfiles | hardware/rtl/axis_udp_port_filter.v:162-165 | a decision on a packet for another buffer, be it to discard it, before the wlast of the packet before: that packet never shows, and the other buffer shows one that was not sent |
| Adapter.UpsizePreservesFrames | hardware/rtl/axis_adapter.v:135-225 | for every valid/ready pattern the frames out, continued by what the registers hold, are the frames in; wide beats are legal |
| Adapter.DownsizePreservesFrames | hardware/rtl/axis_adapter.v:227-319 | the same for cutting wide beats into narrow ones |
| Adapter.DownAfterUpIsIdentity | hardware/rtl/axis_adapter.v:135-319 | downsizing after upsizing is the identity on frames |
| Adapter.Upsizer.Clock | hardware/rtl/axis_adapter.v:165-223 | the clocked block with its segment counter and skid register is the specified step |
| Adapter.Downsizer.Clock | hardware/rtl/axis_adapter.v:262-317 | the clocked block with its shift register is the specified step |
| PortFilter.FilterIsPerPacket | hardware/rtl/axis_udp_port_filter.v:104-155 | in every run each frame taken behind a decision is forwarded or dropped whole, as decided on its own header |
| PortFilter.NothingIsLostIff | hardware/rtl/axis_udp_port_filter.v:152-155 | no beat is taken without a decision exactly when none is offered to the idle filter while its output is ready |
| PortFilter.SelectedBufferIsOpen | hardware/rtl/axis_udp_port_filter.v:104-109 | a packet is forwarded exactly when its port is in range and its socket open, and the buffer selected is the driver's |
| AddressMap.BuffersAgree | hardware/rtl/axis_udp_port_filter.v:104-105 | driver and hardware compute the same buffer index for every port of an accepted range |
| AddressMap.PortsHaveOwnBuffersIff | software/userspace/driver/udriver.c:114-118 | the range check passes exactly the ranges whose ports get buffers of their own |
| AddressMap.InvertedRangeIsDeaf | software/userspace/driver/udriver.c:114-121 | an inverted range passes the check, and exactly then no port is in range |
| AddressMap.AddressesAgreeIff | hardware/rtl/controller_64.v:487-528 | a slot's two addresses agree exactly when it lies below 4 GB |
| AddressMap.RegionAgreesIff | software/userspace/driver/udriver.c:138-148 | all slots agree exactly when the whole region lies below 4 GB |
| AddressMap.LateRegionWraps | software/userspace/driver/udriver.c:144-148 | a page-aligned base address the driver accepts whose third slot wraps to address zero |
| AddressMap.SlotsAreDisjoint | software/userspace/driver/udriver.h:150-161 | different slots share no byte |
| AddressMap.SlotsTile | software/userspace/driver/udriver.h:150-161 | the slots are exactly the bytes of the allocated region |
| PacketConversion.ComposeUndoesDecomposeIff | software/kernel/driver/udp_core_pkt.c:36-91 | composing a decomposed packet gives it back exactly when it has at most 1472 bytes and its destination is not refused |
| PacketConversion.HeaderVerifiesIff | software/kernel/driver/udp_core_pkt.c:153-215 | the IPv4 header verifies under section 3.1 of RFC 791 exactly because the template's checksum field is zero |
| PacketConversion.ChecksumVerifiesIff | software/kernel/driver/udp_core_pkt.c:211-212 | the same for any header |
| PacketConversion.Driver.DecomposeNoStrip | software/kernel/driver/udp_core_pkt.c:168-215 | every call makes the specified buffer and leaves the template's checksum as it was |
| PacketConversion.ComposedFitsSlot | software/kernel/driver/udp_core_pkt.c:74-87 | every accepted packet fits a slot, also when the UDP length field is below eight |
| PacketConversion.ComposedIsDeliveredIff | software/kernel/driver/udp_core_pkt.c:82-88 | an accepted packet leaves the transmit path whole exactly when its payload has at least eight bytes |
| PacketConversion.ShortDatagramIsNotDelivered | software/kernel/driver/udp_core_pkt.c:74-91 | a datagram of one byte that is accepted and does not come out |
| Mdio.FramesAreSerialised | hardware/rtl/mdio_master.v:110-225 | for every prescale and timing the line at successive rising edges is what the commands put there, and the idle master has released it |
| Mdio.DeviceFindsCommands | hardware/rtl/mdio_master.v:143-198 | a device that samples the line at the rising edges finds every command again, in order: all of a write, and of a read the opcode and the addresses |
| Mdio.FrameFields | hardware/rtl/mdio_master.v:144-146 | opcode, addresses and data are found in the frame, most significant bit first |
| Mdio.ReadIsSampled | hardware/rtl/mdio_master.v:175-198 | a read returns sixteen samples of the line, each taken after the right rising edge |
| Mdio.ReturnsToIdle | hardware/rtl/mdio_master.v:127-201 | within a bounded number of cycles the master is at rest again |
| PortList.ParserUndoesPrinterIff | software/kernel/driver/udp_core_devlink.c:17-67 | parsing the printed list gives the same list exactly when it is not empty and fits the buffer |
| PortList.ParseIsUnique | software/kernel/driver/udp_core_devlink.c:17-41 | a string is taken in one way or refused, never both |
| PortList.OpenPorts.ParseOpenSockets | software/kernel/driver/udp_core_devlink.c:17-41 | stores the ports the tokens name; a refused token leaves the count as it was |
| PortList.OpenPorts.OutputOpenSockets | software/kernel/driver/udp_core_devlink.c:43-67 | prints the list, as far as the buffer goes |

## Left out

- Unaligned DMA mode, scatter/gather, and the id, dest and user side channels: not used by the instances; tags are kept.
- Descriptors of length zero, and descriptors that run past the end of the address space: excluded as inputs of the engines; the controller never makes them for a region below 4 GB.
- Widths of the DMA engines' counters: unbounded in the model; they never exceed the descriptor's length.
- Resets during a run, and everything `user_rst_handler.v` does: all runs start at reset and have none later.
- `axis_register` and the streams between modules: taken as lossless handshakes; MAC, ARP, IP and UDP stacks only as sources and sinks of legal streams.
- The read channel of the register file, and its address, MAC and reset registers: reads are atomic where the processor uses them, the others are plain storage.
- TransmitPath.InvStep: the transmit buffer's addresses start at a 2048-aligned base below 4 GB, there is one sender, and a packet fits its slot; the send routine checks none of these. A longer payload would run into the next slot.
- TransmitDelivery.DeliveryIsFifo: payloads of 8 to 2008 bytes; below eight the remover does not give back the payload. Its part on headers asks that they be taken on time, which the remover does not enforce. It says nothing about how soon packets leave.
- SlotRoundTrip.WriteStores: the header inputs of the adder stay the same while the header words go out, as the UDP stack keeps them.
- Interrupt.NoLostWakeUp: starts after the device has been opened, and a pop is one step of the processor, which `PopNotify.PopPrecedesCompletion` justifies; buffers are unbounded counts there.
- NapiPoll.Device.RxPoll: only finitely many skb allocations fail; when allocation fails forever the source's loop does not end either.
- ReceivePath.ReceiveIsFifo: its cycles are those of decisions, stores, wlast and the receive routine's accesses; that memory changes and wlast come as it assumes is proved of the engine in `ReceiveStores.BeatIsConfined` and `ReceiveStores.WlastFindsPacket`. Between decision and wlast the descriptor names the selected buffer's head, whose address registers follow one cycle late. Port range and base address do not change during a run, and the receive routine is called for ports of the range, which it does not check.
- SlotRoundTrip.ReceiveReadsSlot: for a payload above 2008 bytes the routine reads on behind the slot; what it finds there is not modelled beyond the end of the region.
- PacketConversion.ComposeUndoesDecomposeIff: socket buffers are their protocol, data and transport offset; cloning, fragments and the rest of the kernel's structure are left out, as is data behind a buffer whose UDP length lies.
- Mdio.ReadIsSampled: that the device answers after each rising edge is up to the device.
- PortList.OpenPorts.ParseOpenSockets: the string is at most as long as the driver's copy of it, which the caller of the parameter interface ensures.
- What the receive routine returns once a receive ring has overflowed or a push has gone to the wrong buffer: the code prevents neither.
- Cache synchronisation, memory mapping, register maps, statistics, devlink registration, `socket.c`, examples, benchmarks, wiring and constraints.
