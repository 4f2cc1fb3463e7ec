# Orazio packet stack and control loop

A model of the firmware and client of the Orazio robot board, with proofs about whole runs of it.

* **Receiving.** `Framing` and `Deferred` say what the byte-level receiver and the deferred handler
  do, without memory; `PacketHandlers` and `DeferredPacketHandlers` are the handlers as they are
  written, with registers, pointers into one byte memory, a ring of buffers per type and the global
  pending queue, and are proved to do the same byte by byte. `PacketRings` and `DeferredMachine` hold
  the invariant in between. `Delivery`, `Link` and `Resync` are the theorems over runs: exactly once
  and in order, the round trip of a link, recovery from junk, strength of the checksum.
* **Epochs.** `Epoch` is one communication cycle as values and `Comm` the server code that computes
  it; `Client` is the client, `Mirror` what its variables say. `Exchange` puts both at the two ends of
  a line, with sends, cycles and reads interleaved on any number of bytes; `Snapshots`, `Request` and
  `Completion` are the theorems about it, `Configuration` the client's start-up on top of them. `Reception`, `Refusal` and `Provenance` follow frames the server
  has no buffer for; `Misled` and `Stale` are runs in which blocking requests go wrong. `Transmission` follows
  a cycle's output through the UART.
* **Motor safety.** `Watchdog` is the main loop as a step system with the timer interrupt between any
  two steps, `MainLoop` the code of its steps.
* **Control.** `Joint` (int16_t, wrapping), `Encoder`, `Drive` and `DriveController` (real numbers).
* **Devices and storage.** `Uart`, `Eeprom`, `Param`; `Rings` is the one theory of BUFFER_PUT and
  BUFFER_GET that all rings use, with the capacity as a parameter.

`dafny verify dfyconfig.toml` checks everything.

## What the code does that one would not expect

Where a member is named, its contract is the exact statement.

* Two parameter packets in one batch can overrun the 256-byte transmit ring by one byte, and the packet
  refused is the end of the epoch (`Epoch.TwoParamsLoseEndOfEpoch`). One parameter packet always fits.
* The uint8_t fill counts of the UART wrap at 256, so its checks for a full ring never fire and the
  256th byte makes the whole ring read as empty (`Uart.StoreQueues`, `Uart.LosslessIffBounded`). A cycle can
  send just so many (`Transmission.FullCycleCanBeLost`).
* A frame for which the server has no buffer is refused after its size byte, and the rest of it is scanned
  for sync bytes. Three parameter packets in one cycle, the third with another frame inside its payload,
  make the server act on a packet nobody sent and a blocking request return early
  (`Misled.RefusedFrameMisleads`). Packets in which no frame header follows the size cannot do that
  (`Refusal.NoHeaderIsTame`, a sufficient condition); `Refusal.HarmlessExactly` says exactly which packets
  leave no trace at all.
* Setting or loading system or drive parameters re-initialises the drive, which clears its status packet
  (`Epoch.ActSets`) and absorbs a drive command of the same batch (`Epoch.CommandAbsorbed`).
* A multiple of 65536 valid frames in one cycle looks like silence to the watchdog
  (`Watchdog.UncountableFrames`).
* Disabling a joint clears its error integral but not the remembered error, which the derivative gain meets on
  the first tick after (`Joint.DisablingClears`, `Joint.SteadyJoint`).
* `_rx55` drops a second 0xAA, so a stray 0xAA before a frame loses the frame (`Resync.StrayByte`).
* Installing a type twice overwrites its buffers and is then answered PacketInstallError
  (`DeferredPacketHandlers.DeferredPacketHandler.InstallPacket`).
* `Orazio_paramInit` leaves the version numbers it read, not those of the firmware, in RAM
  (`Param.BootKeepsVersionsRead`).
* After 2^16 sequence numbers an old response can be taken for a new one (`Stale.WrapMisleads`),
  and the client's deferred drive command is no longer sent once its number wraps to 0
  (`Client.OrazioClient.SyncCycle`).
* `_computeThetaTerms` lets an odometry step grow longer than the wheel path on turns somewhat above
  4 rad (`Drive.LongTurnOvershoots`); up to 4 rad it never does.
* Comments in include/orazio_packets.h speak of answers that carry the request's sequence number and of
  gains multiplied by 256. The code stamps answers with the number of its own cycle, names the request
  inside the response, and divides the gain sum by 32; the model follows the code.

## Assumptions

* Registered sizes lie in 3..254. Buffers of different types do not overlap. Types are installed while
  no frame is being received and nothing is pending.
* `Request.RequestAnswered` takes runs in which each cycle refuses no frame, or the packets whose frames are
  then on the wire are harmless, or throughout tame; `Request.MildIsCautious` reduces that to a condition on
  the packets sent, which the client can check. It is sufficient; what is exact is `Refusal.HarmlessExactly`
  about traces. `Completion.RequestCompletes` shows that the runs it speaks of exist.
* `Snapshots` takes cycles whose end is refused by the transmit ring or whose three status packets are taken,
  as `Mirror.SnapshotIffFair` shows to be needed.
* Stored parameter packets have their type and size in front (`Epoch.ValidWorld`). A damaged EEPROM with the
  right version number breaks this: `Orazio_paramLoad` then overwrites the size in the header, and that many
  bytes are sent.
* `Watchdog` takes runs in which no cycle brings a positive multiple of 65536 frames.

## Model

| member | source | states |
|---|---|---|
| Delivery.ExactlyOnceInOrder | src/common/deferred_packet_handler.c:10-95 | in every run of received bytes and processPendingPackets calls, also mid-frame, the packets processed followed by those pending are exactly the accepted ones, once each and in arrival order across types; each is byte for byte a frame that was on the wire, and no two frames share a wire byte |
| Delivery.Conservation | src/common/deferred_packet_handler.c:32-39 | frames answered SyncChecksum = packets processed + packets pending + packets dropped on a full queue, in every run |
| Delivery.AllCalled | src/common/deferred_packet_handler.c:88-90 | where every type has an action, the actions are called with exactly the processed packets |
| Delivery.RunTracked | src/common/deferred_packet_handler.c:24-95 | the invariant behind it: the frame under way ends the wire and begins after every earlier arrival |
| PacketRings.MatchesPut | src/common/deferred_packet_handler.c:35-39 | queueing a completed packet keeps: for every type, the pending queue restricted to that type is that type's ring read from its start |
| PacketRings.MatchesGet | src/common/deferred_packet_handler.c:82-93 | releasing the oldest pending packet from its ring keeps the same for the rest of the queue, and it is the first of its own ring |
| PacketRings.RingSizesSum | src/common/deferred_packet_handler.c:35-39 | the occupancies of all rings add up to the length of the pending queue |
| PacketRings.FillSlotApart | src/common/deferred_packet_handler.c:14-19 | the buffer offered for the next packet of a type is not, and does not overlap, any packet still pending |
| PacketRings.FillKeeps | src/common/packet_handler.c:106-126 | writing anywhere inside that buffer changes no pending packet and keeps the refinement |
| PacketRings.PutKeeps | src/common/deferred_packet_handler.c:24-41 | _onReceive with room appends the completed packet, with its bytes, to the pending packets and keeps the refinement |
| PacketRings.GetKeeps | src/common/deferred_packet_handler.c:82-93 | one iteration of the drain loop: the packet is the first of its ring (the assert of the source), the refinement holds for the shifted queue |
| PacketRings.RingSizeIsCount | src/common/deferred_packet_handler.c:14-17 | a ring is as full as there are packets of its type pending |
| PacketRings.EmptyRings | src/common/deferred_packet_handler.c:94-94 | once nothing is pending every ring is empty |
| DeferredMachine.OfferIsRoom | src/common/deferred_packet_handler.c:10-20 | a buffer is offered exactly while fewer packets of the type are pending than it has buffers |
| DeferredMachine.ByteKeepsQueue | src/common/packet_handler.c:50-143 | a received byte, whatever state it finds, keeps the whole invariant and leaves the pending packets' bytes alone |
| DeferredMachine.QueueKeeps | src/common/deferred_packet_handler.c:24-41 | queueing the packet completed keeps the invariant and appends it to the visible queue |
| DeferredMachine.DrainKeeps | src/common/deferred_packet_handler.c:81-95 | draining one packet keeps the invariant, removes the head of the visible queue and asserts what the source asserts |
| DeferredMachine.InstallKeeps | src/common/deferred_packet_handler.c:43-79 | installing a type over free buffers keeps the invariant and the visible queue |
| DeferredMachine.ViewCounts | src/common/deferred_packet_handler.c:16-17 | no more packets of a type are pending than it has buffers |
| DeferredPacketHandlers.DeferredPacketHandler.constructor | src/common/deferred_packet_handler.c:97-101 | an empty handler: no type, nothing pending, hunting for a frame |
| DeferredPacketHandlers.DeferredPacketHandler.InstallPacket | src/common/deferred_packet_handler.c:43-79 | registers type, size and the addresses of the buffers; a type already installed is overwritten and yet answered PacketInstallError |
| DeferredPacketHandlers.DeferredPacketHandler.InitializeBuffer | src/common/deferred_packet_handler.c:10-20 | the slot at the ring's end unless the ring is full |
| DeferredPacketHandlers.DeferredPacketHandler.OnReceive | src/common/deferred_packet_handler.c:24-41 | the packet is the one being written (the assert of the source); it joins the queue unless the queue is full |
| DeferredPacketHandlers.DeferredPacketHandler.RxByte | src/common/packet_handler.c:50-53 | on every byte the handler with memory, rings and pointers does what the queue specification Deferred.Receive does |
| DeferredPacketHandlers.DeferredPacketHandler.ProcessPendingPackets | src/common/deferred_packet_handler.c:81-95 | hands the pending packets to their actions in order and leaves the queue empty; the assert of the loop holds in every iteration |
| DeferredPacketHandlers.RunEvents | src/common/deferred_packet_handler.c:24-95 | a handler driven through any run of bytes and drains ends where the run of the specification ends, with the calls of that run: the theorems about runs are theorems about the handler |
| Deferred.QueueGrowth | src/common/deferred_packet_handler.c:32-39 | over any stretch of input the queue grows by one packet per checksum-valid frame until it holds eight, and only at its end |
| Deferred.ErrorsCounted | src/common/packet_handler.c:50-143 | over any stretch of input, every byte that leaves the receiver hunting is counted once, as the end of a packet or as an error |
| Framing.ErrorsTellWhy | src/common/packet_handler.c:55-143 | a byte is an error iff it leaves the receiver hunting without a packet; unknown type, wrong size, missing buffer and wrong checksum each have their own answer |
| RxRegisters.SizeStep | src/common/packet_handler.c:89-114 | the size byte establishes: bytes written + rx_bytes_to_read = declared size and rx_checksum is the XOR of what was written |
| RxRegisters.PayloadStep | src/common/packet_handler.c:116-126 | a payload byte stays inside the declared size and keeps that invariant; it is one step of the abstract receiver |
| PacketHandlers.PacketHandler.constructor | src/common/packet_handler.c:13-28 | nothing installed, hunting for 0xAA, transmit ring empty |
| PacketHandlers.PacketHandler.InstallPacket | src/common/packet_handler.c:30-38 | bounds and duplicate check; on success the type is registered and the receiver undisturbed |
| PacketHandlers.PacketHandler.RxByte | src/common/packet_handler.c:50-53 | the six state functions with registers and pointers compute the step of the abstract receiver; memory changes only inside the current packet |
| PacketHandlers.PacketHandler.RxAA | src/common/packet_handler.c:55-62 | the hunting state |
| PacketHandlers.PacketHandler.Rx55 | src/common/packet_handler.c:64-72 | the second sync byte; anything else, 0xAA included, goes back to hunting |
| PacketHandlers.PacketHandler.RxType | src/common/packet_handler.c:74-87 | type out of range, unknown, or accepted |
| PacketHandlers.PacketHandler.RxSize | src/common/packet_handler.c:89-114 | size mismatch, no buffer, or the header written to the buffer |
| PacketHandlers.PacketHandler.RxPayload | src/common/packet_handler.c:116-126 | one byte stored, counted and added to the checksum |
| PacketHandlers.PacketHandler.RxChecksum | src/common/packet_handler.c:128-143 | on_receive is called with the packet iff the checksum matches |
| PacketHandlers.PacketHandler.PutTxByte | src/common/packet_handler.c:145-150 | appends to the transmit queue unless it holds 256 bytes |
| PacketHandlers.PacketHandler.TxByte | src/common/packet_handler.c:152-159 | removes the oldest byte of the transmit queue, 0 if there is none |
| PacketHandlers.PacketHandler.SendPacket | src/common/packet_handler.c:161-180 | queues exactly the packet's frame, or refuses it and changes nothing |
| PacketHandlers.PacketHandler.PutTxBytes | src/common/packet_handler.c:170-177 | the loop queues the packet's bytes and accumulates their XOR |
| Rings.PutSlots | include/buffer_utils.h:2-6 | BUFFER_PUT appends the slot at end to the slots occupied, for every capacity |
| Rings.GetSlots | include/buffer_utils.h:8-12 | BUFFER_GET removes the slot at start |
| Rings.PutContents | include/buffer_utils.h:2-6 | storing at end and BUFFER_PUT append the value to the ring's contents |
| Rings.GetContents | include/buffer_utils.h:8-12 | the value at start is the oldest; BUFFER_GET removes it |
| Bytes.Xor8Laws | src/common/packet_handler.c:75-75 | the XOR of the checksum is a commutative group in which every byte is its own inverse |
| Bytes.XorOfDiff | src/common/packet_handler.c:117-117 | the checksum of a difference is the difference of the checksums |
| Link.RoundTrip | src/common/packet_handler.c:145-180 | for every interleaving of send attempts and byte transfers the peer's packets are a prefix of the successful sends, and all of them once the ring is empty |
| LinkHandlers.RunLink | src/common/packet_handler.c:50-180 | two handlers driven over any list of send attempts and transfers are in the state of that run, and so are the packets sent and delivered |
| Link.FeedFrame | src/common/packet_handler.c:55-143 | a frame with any checksum byte is delivered iff the byte is the XOR of type, size and payload |
| Link.FeedFrames | src/common/packet_handler.c:55-180 | frames sent one after the other are delivered one after the other, and leave the receiver hunting |
| Link.FeedConcat | src/common/packet_handler.c:50-53 | reading in pieces is reading at once |
| Link.DeliveredPrefix | src/common/packet_handler.c:50-180 | any part of a stream of frames delivers the packets whose frames are complete in it |
| Resync.Progress | src/common/packet_handler.c:50-143 | every byte received inside a frame strictly lowers a measure that is at most S + 2, S the largest registered size, and 0 exactly in the hunting state |
| Resync.ReturnsToHunting | src/common/packet_handler.c:50-143 | from any state some prefix of at most S + 2 bytes, whatever they are and whether or not buffers are offered, ends in hunting |
| Resync.JunkResets | src/common/packet_handler.c:55-143 | from every state S + 2 bytes without 0xAA leave the receiver hunting |
| Resync.FrameAfterJunk | src/common/packet_handler.c:55-143 | after such junk, whichever buffers were refused during it, the next complete frame is delivered |
| Resync.StrayByte | src/common/packet_handler.c:64-72 | one stray byte before a frame loses the frame iff the byte is 0xAA, because _rx55 does not look at a second 0xAA again |
| Resync.AlteredFrame | src/common/packet_handler.c:116-143 | a frame altered in payload or checksum is delivered iff the XOR of all byte differences is 0 |
| Resync.SingleAlteredByte | src/common/packet_handler.c:128-143 | one altered byte is always caught, and the frame after it is delivered |
| Uart.UART.PutChar | src/arch/atmega2560/uart.c:99-107 | stores the byte at the end of the transmit ring and enables the interrupt; it never waits, because a uint8_t size never reaches 256 |
| Uart.UART.GetChar | src/arch/atmega2560/uart.c:109-117 | removes the oldest received byte |
| Uart.UART.RxInterrupt | src/arch/atmega2560/uart.c:120-126 | the receive interrupt stores at the end of the receive queue; its full check never fires |
| Uart.UART.TxInterrupt | src/arch/atmega2560/uart.c:128-135 | the transmit interrupt sends the oldest byte or disables itself |
| Uart.StoreQueues | src/arch/atmega2560/uart.c:34-47 | a byte stored behind at most 254 others joins the queue; behind 255 the ring reads as empty |
| Uart.BoundedIsLossless | src/arch/atmega2560/uart.c:99-135 | for every interleaving of the two ends of a ring, bytes leave in order, none lost or doubled, while occupancy stays at or below 255 |
| Uart.LosslessIffBounded | src/arch/atmega2560/uart.c:101-125 | and only then: all prefixes of a run are lossless iff the occupancy bound holds throughout |
| Transmission.SurvivesIffShort | src/arch/atmega2560/uart.c:99-107 | an output handed to an empty UART ring survives every interleaving with the transmit interrupt iff it is shorter than 256 bytes; 256 bytes handed over before the interrupt comes are lost whole |
| Transmission.CycleReachesWire | src/server/orazio_comm.c:195-200 | from an empty UART ring a cycle with at most one parameter packet reaches the wire whatever the interrupt does |
| Transmission.FullCycleCanBeLost | src/server/orazio_comm.c:195-200 | five packets make a cycle of exactly 256 bytes, which the transmit ring takes and the UART ring can lose whole |
| Epoch.ServerSizes | src/server/orazio_comm.c:131-179 | the six packets the server registers have sizes the byte-level handler supports |
| Epoch.Response | src/server/orazio_comm.c:40-45 | the response is a well-formed packet with the cycle's sequence number |
| Epoch.Stamp | src/server/orazio_comm.c:202-203 | stamping changes the sequence number and nothing else |
| Epoch.ActResponds | src/server/orazio_comm.c:49-128 | every deferred action ends with one response naming type and sequence number of its packet, after at most one parameter packet |
| Epoch.ActSets | src/server/orazio_comm.c:49-89 | a set packet's payload becomes the variable; system and drive parameters also clear the drive status, and nothing else changes; only a joint command switches the drive off; a parameter packet is echoed with the payload received; the response says Success |
| Epoch.ActControlsParams | src/server/orazio_comm.c:91-128 | for class 0, 1 and 2 the answer to request, save and load is the system, joint and drive parameter packet with the payload the class then has; save stores that variable, load restores what is stored for it and, for system and drive, clears the drive status; nothing else changes |
| Epoch.ActRefuses | src/server/orazio_comm.c:96-126 | the result is Success iff the action is a request, or a load or save of a known class; an unknown class gets the response alone; a refused packet or a mere request changes no payload, nothing stored and nothing of the drive |
| Epoch.SaveThenLoad | src/server/orazio_comm.c:91-128 | save, set, load: the answer to the load carries the payload saved |
| Epoch.SendAllFits | src/common/packet_handler.c:161-180 | the transmit ring takes a batch as frames, and all of it iff the frames fit into 256 bytes |
| Epoch.ReportCost | src/server/orazio_comm.c:225-231 | what the report costs, from the mask: 30, 29 and 43 bytes for the status packets and 7 for the end of epoch |
| Epoch.ActLatch | src/server/orazio_comm.c:49-128 | what an action does to the drive command in force and to the one the drive has seen last |
| Epoch.CommandAbsorbed | src/server/orazio_drive.c:8-26 | over all batches: a new drive command is still new to the drive afterwards iff no system or drive parameters are set or loaded behind it, which re-initialises the drive |
| Epoch.ActCost | src/server/orazio_comm.c:49-128 | what the answer to a packet costs on the wire: 39, 50 or 52 bytes where it echoes a parameter packet, 11 otherwise |
| Epoch.CycleFits | src/server/orazio_comm.c:220-233 | no send of a cycle fails iff what the batch costs and what the mask asks for come to at most 256 bytes together |
| Epoch.OneParamFits | src/server/orazio_comm.c:220-233 | a batch with at most one parameter packet queues at most 205 bytes, so every send of the cycle succeeds |
| Epoch.TwoParamsLoseEndOfEpoch | src/server/orazio_comm.c:220-233 | two drive-parameter packets with four control packets come to 257 bytes, and what the ring refuses is the end-of-epoch packet |
| Epoch.CycleShape | src/server/orazio_comm.c:220-231 | all packets of a cycle carry its sequence number, the end of epoch is last and only there; with everything wanted all three status packets are in it |
| Epoch.ReportPayloads | src/server/orazio_comm.c:202-218 | the periodic packets carry the payloads of the global variables and leave those alone |
| Comm.InitializePackets | src/server/orazio_comm.c:131-179 | the six installs, each with two buffers, all succeed and give the server's configuration |
| Comm.InstallNext | src/server/orazio_comm.c:131-179 | one install over buffers not in use succeeds and leaves the handler ready for the next |
| Comm.OrazioComm.constructor | src/server/orazio_comm.c:212-217 | a handler set up with the six packets, sequence number 0, all counters 0, an empty transmit ring |
| Comm.OrazioComm.ParamSet | src/server/orazio_param.c:87-103 | new system or drive parameters clear the drive status packet and make the drive take the present command as seen |
| Comm.OrazioComm.Transmit | src/server/orazio_comm.c:202-210 | the packet is queued and counted in tx_packets, or refused and counted in tx_packet_errors; the pending packets are untouched |
| Comm.OrazioComm.SendPacket | src/server/orazio_comm.c:202-210 | the variable is stamped even where the ring refuses it |
| Comm.OrazioComm.SendResponse | src/server/orazio_comm.c:40-45 | sends the response to a packet |
| Comm.OrazioComm.CopyToVar | src/server/orazio_comm.c:49-55 | the drive-control action is the action of the value model |
| Comm.OrazioComm.CopyToVarAndDisableDrive | src/server/orazio_comm.c:59-66 | the joint-control action also switches the drive off |
| Comm.OrazioComm.CopyToVarAndSend | src/server/orazio_comm.c:70-89 | the parameter actions also send the variable back |
| Comm.OrazioComm.HandleParamControlPacket | src/server/orazio_comm.c:91-128 | request, load and save of a parameter class, with the error answers for unknown codes |
| Comm.OrazioComm.FlushInputBuffers | src/server/orazio_comm.c:182-193 | the whole input reaches the receiver; rx_packets and rx_packet_errors count modulo 2^16 |
| Comm.OrazioComm.RunActions | src/server/orazio_comm.c:224-224 | the actions of all pending packets run in order and the queue is empty after |
| Comm.OrazioComm.SendReport | src/server/orazio_comm.c:225-231 | the periodic packets the mask asks for, then the end of the epoch |
| Comm.OrazioComm.FlushOutputBuffers | src/server/orazio_comm.c:195-200 | the output is what the transmit ring held, and the ring is empty |
| Comm.OrazioComm.CommHandle | src/server/orazio_comm.c:220-233 | one cycle: sequence number plus 1 modulo 2^16, state and output are those of the value model, ring and queue start and end empty; with at most one parameter packet the output is the whole epoch; rx_packets, rx_packet_errors, tx_packets and tx_packet_errors count modulo 2^16 |
| Comm.BatchFits | src/server/orazio_comm.c:11-12 | two buffers per type bound the control packets of a batch, so at most one parameter packet per batch is all the budget assumes |
| Comm.SilentCycle | src/server/orazio_comm.c:220-233 | a cycle without a checksum-valid frame changes no command, parameter or stored value and does not touch the drive switch |
| Comm.PendingAreCalls | src/server/orazio_comm.c:131-179 | whatever is pending in the server's handler is a packet its actions can take |
| Mirror.EpochIsSnapshot | src/client/orazio_client.c:45-48 | reading a whole epoch makes the mirrored packets a snapshot of it |
| Mirror.EndOfEpochIsSnapshot | src/client/orazio_client.c:225-241 | in a stream of epochs that are complete or lack their end, whenever the last packet read ends an epoch, the mirrored status packets and end of epoch carry one sequence number |
| Mirror.ConsumedSnapshot | src/client/orazio_client.c:79-93 | the same from the bytes read |
| Mirror.CycleIsComplete | src/server/orazio_comm.c:220-233 | what the server sends in a full cycle is such an epoch, of packets the client has registered |
| Mirror.StatusReflected | src/server/orazio_comm.c:202-218 | reading a cycle that reports everything brings the client the server's three status payloads as they were when the cycle's actions had run |
| Client.OrazioClient.constructor | src/client/orazio_client.c:96-159 | the eight packets are registered, the response mirror names no packet |
| Client.OrazioClient.ReadPacket | src/client/orazio_client.c:79-93 | reads exactly the next packet of those the bytes of the line still deliver, which replaces the mirror of its type; without one it reads all bytes and reports nothing |
| Client.OrazioClient.ReadIsPrefix | src/client/orazio_client.c:79-93 | what has been read and what the bytes ahead deliver are together the packets of the whole line |
| Client.OrazioClient.Enqueue | src/client/orazio_client.c:173-185 | uses up a sequence number in any case; checks type, size and room in this order and queues the stamped frame |
| Client.OrazioClient.FlushBuffer | src/client/orazio_client.c:72-77 | moves the transmit ring to the line |
| Client.OrazioClient.SendPacket | src/client/orazio_client.c:187-223 | non-blocking and blocking send: refused exactly for an unknown type, a wrong size or lack of room; otherwise queued, or flushed and awaited with the result that the packets ahead on the line determine |
| Client.OrazioClient.Await | src/client/orazio_client.c:207-218 | the packets ahead fix the result: Success at the first after which the mirrored response names the request, Timeout if none of the first `timeout` does, and no result if there are fewer; exactly these packets are read |
| Client.SucceedsIffNamed | src/client/orazio_client.c:209-218 | waiting succeeds iff one of the first `timeout` packets ahead leaves a response that names the request |
| Client.OrazioClient.ReadEpoch | src/client/orazio_client.c:232-237 | ends at the first end-of-epoch packet ahead with a new sequence number, and on nothing else |
| Client.OrazioClient.SyncCycle | src/client/orazio_client.c:226-239 | flush, re-send of the drive command, and one epoch read; the drive command stops being sent when its sequence number wraps to 0 |
| Client.OrazioClient.Sync | src/client/orazio_client.c:225-241 | reads exactly until the end of epoch has changed `cycles` times, if the packets ahead let it, and sends a drive command that was set once per cycle; if the line carries epochs that are complete or lack their end, the mirrors are a snapshot of one of them when the call ends, whoever read the packets before |
| Client.SyncedGoesOn | src/client/orazio_client.c:226-239 | one more cycle of reading adds exactly one change of the end of epoch, with its last packet |
| Client.SizesAgree | src/client/orazio_client.c:148-155 | the client may send exactly the packets and sizes the server registers |
| Client.ReadOneMore | src/client/orazio_client.c:79-93 | one more byte read keeps the mirrors equal to what the bytes read so far deliver |
| Exchange.RepliesExplained | src/server/orazio_comm.c:49-128 | every response of a batch names a packet of the batch |
| Exchange.RunInvariant | src/server/orazio_comm.c:220-233 | in every run of client and server over a lossless line what the client reads was emitted, in order, and every response names a packet acted on; until 2^16 uses the packets sent carry increasing numbers |
| Reception.HeadRefused | src/common/packet_handler.c:102-105 | without a free buffer the size byte is an error and the receiver hunts in the rest of the frame |
| Reception.ReceiveFrame | src/common/deferred_packet_handler.c:10-41 | a whole frame there is room for is no error, and joins the queue unless the queue is full |
| Refusal.ScanReceives | src/common/deferred_packet_handler.c:14-17 | up to a delivery the handler scans bytes like a receiver with these types full |
| Refusal.HarmlessVanishes | src/common/packet_handler.c:89-143 | a harmless packet whose frame is refused leaves no trace, whatever is pending and wherever the cycle ends |
| Refusal.HarmlessExactly | src/common/packet_handler.c:89-143 | exactly the harmless packets do: any other leaves a trace for some queue and some end of the cycle; harmless is a condition on the packet's bytes, checked over finitely many sets of full types and cuts |
| Refusal.FillingReached | src/common/deferred_packet_handler.c:24-41 | each such queue comes about by receiving its packets |
| Refusal.CalmIsHarmless | src/common/packet_handler.c:55-72 | a packet is harmless if from its sequence number on, checksum included, 0xAA is neither followed by 0x55 nor last |
| Refusal.EmbeddedQueued | src/common/packet_handler.c:89-143 | a refused frame whose tail goes on with the frame of another packet puts that packet into the queue |
| Refusal.TameScanned | src/common/packet_handler.c:55-143 | scanning what follows the size of a tame packet queues nothing and ends outside a packet, whatever is full and wherever the cycle ends |
| Refusal.NoHeaderIsTame | src/common/packet_handler.c:55-114 | a packet is tame if no frame header of a registered type and size follows its own size byte, checksum included |
| Provenance.LostPart | src/common/packet_handler.c:55-87 | a frame that meets a receiver outside a packet but not hunting is lost, and if it is tame nothing of it is queued |
| Provenance.Batch | src/common/deferred_packet_handler.c:10-41 | a cycle on part of a stream of frames queues only packets of the stream and leaves the rest aligned, if nothing is refused or all are harmless (or all tame) |
| Provenance.RunFromClient | src/server/orazio_comm.c:182-193 | in every run in which each cycle refuses nothing or the frames then on the wire are harmless (or tame throughout), the server acts only on packets the client sent |
| Completion.StillReturned | src/client/orazio_client.c:207-218 | a mirrored response that names the awaited packet goes on doing so while the client reads the report of a cycle that comes before the request has arrived, so the blocking send returns Success |
| Misled.CarrierMisleads | src/common/packet_handler.c:102-105 | for a whole family of packets: the client sends the request, reads one more report and returns Success; four numbers are used, and what the server has acted on are the first two packets and the one carried inside the third |
| Misled.RefusedFrameMisleads | src/client/orazio_client.c:187-223 | so blocking requests are not sound for all packets: a run with concrete packets in which Success is returned and the server has not acted on the request |
| Request.RequestAnswered | src/client/orazio_client.c:187-223 | blocking request soundness, for all runs in which each cycle refuses nothing or the frames then on the wire are all harmless (or, throughout the run, all tame): with fewer than 2^16 sequence numbers used, a matching response means that the server acted on exactly that packet after it was sent, and that the response was read after it was sent |
| Request.MildIsCautious | src/client/orazio_client.c:173-185 | sending only harmless packets, or only tame ones, is enough for that, whatever the server refuses |
| Stale.StaleResponse | src/client/orazio_client.c:173-223 | the bound is needed: after an answered request and 65535 sends turned away by the type or size check, a new request of the same type returns Success on the old response, the server having acted on nothing since |
| Stale.WrapMisleads | src/client/orazio_client.c:173-223 | such a run exists from the very start, for any two packets of one type with different payloads |
| Completion.SilentIsQuiet | src/client/orazio_client.c:187-223 | after such a run, with harmless packets, the server waits for a frame to begin whenever nothing is on its way |
| Completion.RequestCompletes | src/client/orazio_client.c:187-223 | from every reachable quiet state a blocking send completes: one server cycle later the client has the response and the server has acted on this packet only |
| Completion.AnswerAwaited | src/client/orazio_client.c:207-218 | where the packets ahead are what a server cycle answers to the request, waiting for at least as many succeeds |
| Completion.BlockingSend | src/client/orazio_client.c:187-223 | the method: over a line whose next bytes are a server cycle's answer to the packet, a blocking send that may read that many packets returns Success |
| Configuration.ReadConfiguration | src/client/orazio_client.c:243-274 | three blocking queries, one per parameter class; if the line holds their answers in time it succeeds, the mirrored packets of types 3, 6 and 9 carry the payloads of the server's variables, and what was behind the answers is still ahead |
| Configuration.Query | src/client/orazio_client.c:255-270 | one query: the packet naming this class leaves, and the answer the line holds is read and nothing behind it |
| Configuration.TurnReflected | src/server/orazio_comm.c:91-128 | no packet before the response names the query; with the response the mirror of the class asked for is the server's variable and the other parameter mirrors are as before |
| Configuration.CyclesServe | src/server/orazio_comm.c:195-233 | server cycles that act on the queries one after the other, with reports of other cycles in between, form such a line |
| Configuration.ConfigurationCompletes | src/client/orazio_client.c:243-274 | in the system of client and server: from every reachable quiet state the three queries, each served and read, make the server act on exactly them and leave its three parameter payloads in the client's mirrors |
| Mirror.FairIsHonest | src/server/orazio_comm.c:220-231 | what the transmit ring takes of a cycle is a complete epoch or lacks its end, iff the end is refused or all three status packets are taken |
| Mirror.SnapshotIffFair | src/client/orazio_client.c:45-48 | where the end of an epoch gets through and the mirrors hold other epochs, reading it makes them a snapshot iff all three status packets got through |
| Snapshots.FullIsFair | src/server/orazio_comm.c:220-231 | a cycle that reports everything and fits is fair in that sense |
| Snapshots.RunEpochs | src/server/orazio_comm.c:220-233 | in every run of fair cycles the server's output is a sequence of such epochs, numbered consecutively modulo 2^16 |
| Snapshots.SnapshotConsistency | src/client/orazio_client.c:225-241 | over all runs of client and server with fair cycles: whenever the last packet read ends an epoch, the mirrors are a snapshot of one cycle |
| Watchdog.DeadManSafety | src/server/orazio.c:66-83 | for every run, with timer ticks anywhere and watchdog_cycles 1..65535: once that many cycles in a row brought no valid frame, joints are disabled with output 0 and the drive is off, until the next valid frame |
| Watchdog.MotorsStayOn | src/server/orazio.c:66-83 | for every such run, no step but a packet of the client switches a joint or the drive off before watchdog_cycles cycles in a row, the present one included, brought no valid frame |
| Watchdog.TripsAtDeadline | src/server/orazio.c:68-79 | the watchdog starts to disable in a silent cycle exactly if the cycle is that deadline, or the count has wrapped around to it; it is disabling only then |
| Watchdog.CyclesPaced | src/server/orazio.c:24-32 | in every run there are no more communication cycles than times the prescaler has run out, and one more if the first was due |
| Watchdog.Prescaler | src/server/orazio.c:24-32 | of the ticks after a reload exactly every comm_cycles-th, modulo 256, asks for a communication cycle |
| Watchdog.CycleEnds | src/server/orazio.c:60-85 | a communication cycle ends after at most 14 moves of the main loop, wherever interrupts come in between |
| Watchdog.MoveProgresses | src/server/orazio.c:60-85 | a cycle that is due begins with the next move, and every move inside a cycle brings its end nearer |
| Watchdog.OwnSample | src/server/orazio_joints.c:16-21 | a tick takes each joint's own encoder sample, command and limits |
| Watchdog.RunInvariant | src/server/orazio.c:59-85 | the invariant over all steps: the count is the distance to the deadline, and past it the motors are off |
| Watchdog.TickKeeps | src/server/orazio.c:24-32 | a timer tick never undoes what the main loop has disabled so far |
| Watchdog.WatchKeeps | src/server/orazio.c:68-79 | the watchdog step keeps the invariant |
| Watchdog.DisableKeeps | src/server/orazio_joints.c:23-28 | so does each single write of disabling the motors |
| Watchdog.DriveKeeps | src/server/orazio_drive.c:36-44 | so does the enable latch of the drive, which cannot fire in a silent cycle past the deadline |
| Watchdog.ActionKeeps | src/server/orazio_comm.c:49-128 | so does anything a deferred action writes, in a cycle with a valid frame |
| Watchdog.SupervisedIsSteps | src/server/orazio.c:66-83 | uninterrupted, the steps are the watchdog code as one piece |
| Watchdog.UncountableFrames | src/server/orazio.c:69-72 | 65536 valid frames in one cycle look like none: a run in which the watchdog misses its deadline |
| MainLoop.Server.constructor | src/server/orazio.c:34-56 | the state in which the loop is entered; it is one the runs of the step system start from |
| MainLoop.Server.JointsHandle | src/server/orazio_joints.c:16-21 | both controllers run on the sampled encoders |
| MainLoop.Server.OnTimerTick | src/server/orazio.c:24-32 | the tick of the step system |
| MainLoop.Server.JointsDisable | src/server/orazio_joints.c:23-28 | both joints disabled with output 0, nothing else changed |
| MainLoop.Server.DriveLatch | src/server/orazio_drive.c:36-41 | the drive switch turns on iff the drive packet's sequence number is new |
| MainLoop.Server.Supervise | src/server/orazio.c:66-83 | the end of the cycle as the step system has it |
| Joint.JointController.Handle | src/server/orazio_joints_internal.c:15-59 | the method's fields after a tick are those of the int16_t model |
| Joint.JointController.PidStep | src/server/orazio_joints_internal.c:35-55 | the PID branch, every operation wrapping |
| Joint.Clamp | src/server/orazio_joints_internal.c:7-13 | the nearest value within the limit |
| Joint.AlwaysLimited | src/server/orazio_joints_internal.c:15-59 | in every run the error integral stays within max_i and the previous error within slope |
| Joint.DisablingClears | src/server/orazio_joints_internal.c:26-29 | after a disabled tick and n more ticks of any mode the error integral is at most n slopes, and at most max_i, whatever came before; right after the disabled tick it is 0 |
| Joint.SteadyJoint | src/server/orazio_joints_internal.c:35-55 | a joint switched from disabled to a speed while its wheel turns at a constant speed: after n ticks the integral is n times the ramped error, and the output is the ramp plus kp on the error, ki on that sum and kd on the change of the error, divided by 32, limited and with the dead zone |
| Joint.OutputLimited | src/server/orazio_joints_internal.c:23-57 | after a PID tick the output is within max_pwm and 0 or at least min_pwm; a disabled joint has output 0, a PWM joint the commanded value, an unknown mode keeps the output; the status shows the mode, the output that was in force and the command cut to the top speed; no other mode touches the integral or the remembered error |
| Joint.PidFits | src/server/orazio_joints_internal.c:37-48 | under the stated bounds on limits, gains and encoder speed no int16_t intermediate overflows |
| Joint.PidIsLaw | src/server/orazio_joints_internal.c:35-55 | then one PID step is the control law over unbounded integers |
| Joint.NoOverflow | src/server/orazio_joints_internal.c:15-59 | and so is every run whose encoder speeds stay within the bound |
| Joint.DefaultsSafe | src/server/orazio_globals.c:25-52 | the shipped parameters meet the bounds iff encoder speeds stay at or below 32423 |
| Int16.TruncDivMeaning | src/server/orazio_joints_internal.c:46-48 | the division of C: quotient toward zero, remainder with the sign of the dividend |
| Encoder.TableExact | src/arch/atmega2560/encoder.c:48-66 | the transition table gives the step between neighbouring quarter positions, in both directions, and 0 for none |
| Encoder.Encoders.PinChange | src/arch/atmega2560/encoder.c:69-83 | both channels are decoded from one port value |
| Encoder.Encoders.Sample | src/arch/atmega2560/encoder.c:31-36 | every sampled value is the current value |
| Encoder.CounterTracks | src/arch/atmega2560/encoder.c:69-83 | for every run of at most one quarter step per interrupt the counter is the true position modulo 2^16 |
| Encoder.ParityTracks | src/arch/atmega2560/encoder.c:69-83 | in every run, also with missed steps, the pins are those of the true position and the counter has its parity |
| Encoder.TableModulo | src/arch/atmega2560/encoder.c:48-66 | of any move the table gives what is left modulo four quarter steps, half a period counting as none |
| Encoder.SpeedExact | src/server/orazio_joints_internal.c:20-22 | the wrapped difference of two samples is the true displacement iff that fits int16_t |
| Encoder.SpeedsAddUp | src/server/orazio_joints_internal.c:20-22 | over every such run the encoder speeds add up to the exact displacement, unbounded |
| Drive.SumsAreTerms | src/server/orazio_drive_internal.c:13-29 | the coefficient loop's sums are 1-x^2/6+x^4/120 and x/2-x^3/24+x^5/720 |
| Drive.ComputeThetaTerms | src/server/orazio_drive_internal.c:13-29 | the loop computes these two polynomials |
| Drive.StepLength | src/server/orazio_drive_internal.c:97-110 | the exact squared length of an odometry step |
| Drive.StepIsArc | src/server/orazio_drive_internal.c:102-109 | turned back by the heading, a step is half the wheel path times the two polynomials: the first ahead, the second to the left |
| Drive.StepFollowsTurn | src/server/orazio_drive_internal.c:102-109 | a step goes ahead iff the wheels together did, and to the left iff it turns left going ahead or right going back, for turns of any size |
| Drive.TermSigns | src/server/orazio_drive_internal.c:8-29 | the first polynomial is positive everywhere, the second has the sign of the turn |
| Drive.StraightRun | src/server/orazio_drive_internal.c:102-115 | over every run without a turn the base moves along its heading by the wheels' mean path and keeps its heading |
| Drive.StepWithinWheelPath | src/server/orazio_drive_internal.c:97-110 | the step is no longer than the wheel path iff the stated polynomial is not negative, in particular for turns up to 4 rad |
| Drive.LongTurnOvershoots | src/server/orazio_drive_internal.c:97-110 | a turn of 4.25 rad makes it longer |
| Drive.NormalizeOnce | src/server/orazio_drive_internal.c:111-115 | one correction brings an angle back to within pi iff it is within 3 pi; an angle within pi is left alone, any other moves toward 0 by 2 pi |
| Drive.HeadingAddsUp | src/server/orazio_drive_internal.c:110-115 | over every run the heading is the start's plus the sum of all turns, up to full circles |
| Drive.HeadingBounded | src/server/orazio_drive_internal.c:110-115 | over every run with turns up to 2 pi the heading stays within pi |
| Drive.KinematicRoundTrip | src/server/orazio_drive_internal.c:178-194 | wheels that follow the commanded ticks give back tv and rv exactly |
| Drive.CommandedPaths | src/server/orazio_drive_internal.c:183-187 | the wheel paths commanded for a joint period add up to twice tv times the period, and the right one exceeds the left one by baseline times rv times the period |
| Drive.TruncatedRoundTrip | src/server/orazio_drive_internal.c:178-194 | with whole ticks the errors are below (|kl|+|kr|)/(2 joints_dt) and (|kl|+|kr|)/(|baseline| joints_dt) |
| Drive.AdjustLimits | src/server/orazio_drive_internal.c:138-156 | the adjusted velocity respects the velocity limit always, and the acceleration limit iff the measured velocity exceeds the velocity limit by at most one step; an admissible command passes unchanged, one further away moves the velocity by exactly one step toward it |
| Drive.ClampReal | src/server/orazio_drive_internal.c:32-38 | the value itself, or the threshold of its sign where its magnitude is larger |
| DriveController.DifferentialDriveController.constructor | src/server/orazio_drive_internal.c:40-70 | starts at the origin with the encoders' present positions |
| DriveController.DifferentialDriveController.Update | src/server/orazio_drive_internal.c:76-157 | pose, measured and adjusted velocities from the wrapped tick differences |
| DriveController.Follow | src/server/orazio_drive_internal.c:79-84 | over updates between which each wheel moves by less than int16_t holds, the ticks counted since a reset add up to the true displacement, unbounded |
| DriveController.DifferentialDriveController.UpdateOdometry | src/server/orazio_drive_internal.c:76-123 | the odometry half |
| DriveController.DifferentialDriveController.LimitVelocities | src/server/orazio_drive_internal.c:125-156 | the acceleration profile, with the brake limit for a zero command |
| DriveController.DifferentialDriveController.Control | src/server/orazio_drive_internal.c:178-194 | wheel ticks per joint period from the adjusted velocities, and PID mode |
| Eeprom.EEPROM.Read | src/arch/atmega2560/eeprom.c:6-16 | the byte loop reads the region |
| Eeprom.EEPROM.Write | src/arch/atmega2560/eeprom.c:18-27 | the byte loop writes the region and nothing else |
| Eeprom.ReadBack | src/arch/atmega2560/eeprom.c:6-27 | reading a region gives what was written there, and other regions are as before |
| Param.RegionsSeparate | src/server/orazio_param.c:13-17 | the five regions of the EEPROM never overlap |
| Param.ParamStore.ParamLoad | src/server/orazio_param.c:53-69 | loads the named class, GenericError otherwise |
| Param.ParamStore.ParamSave | src/server/orazio_param.c:71-85 | saves the named class, GenericError otherwise |
| Param.ParamStore.ParamInit | src/server/orazio_param.c:29-51 | boot: loads, or saves the defaults if the protocol version differs; the state after it is that of the value model |
| Param.LoadRestoresLastSave | src/server/orazio_param.c:53-85 | after any sequence of edits, saves and loads of any classes, a class loads with exactly the bytes of its last save |
| Param.BootKeepsVersionsRead | src/server/orazio_param.c:47-49 | after a boot the RAM holds the version numbers read before anything was written, and those of the firmware iff the EEPROM held them |
| Param.BootStampsVersion | src/server/orazio_param.c:29-51 | after a boot the stored protocol version is the firmware's; a matching EEPROM is not written and the RAM holds the stored parameters; otherwise the firmware version and all three classes are stored as well, and the RAM keeps its parameters |
| Param.SecondBootOnlyReads | src/server/orazio_param.c:29-51 | on arbitrary contents the second boot writes nothing and brings back the last saves |
| MainLoop.Server.DriveDisable | src/server/orazio_drive.c:32-34 | the drive switch is off |
| MainLoop.Server.CountSilence | src/server/orazio.c:69-72 | the count goes down by one iff rx_packets did not change |
| Client.OrazioClient.SetBaseVelocity | src/client/orazio_client.c:293-297 | the deferred drive command, marked to be sent |
| Client.OrazioClient.ReadBytes | src/client/orazio_client.c:79-93 | the loop of _readPacket: bytes are consumed until one packet is complete |
| Client.OrazioClient.SendDeferred | src/client/orazio_client.c:228-231 | everything queued leaves; the drive command is queued, stamped, exactly while its number is not 0 |
| Client.OrazioClient.SendAndWait | src/client/orazio_client.c:199-223 | the blocking branch of the send |
| Client.OrazioClient.InstallPacketOp | src/client/orazio_client.c:50-70 | registers a packet; it never fails here |
| Client.OrazioClient.CopyToBuffer | src/client/orazio_client.c:45-48 | copies the complete packet to its variable |
| Comm.OrazioComm.DoParamAction | src/server/orazio_comm.c:96-122 | the two switches of that action |
| DriveController.DifferentialDriveController.Reset | src/server/orazio_drive_internal.c:159-172 | pose set, velocities cleared, wheel motion so far forgotten |

## Left out

- PACKET_SIZE_ANY and sizes below 3: the receiver stores 0xFF as the size and its counter wraps below.
- PacketHandler_uninstallPacket, and installing a type while traffic is in flight.
- Callbacks are not function pointers: the answer of initialize_buffer_fn is a parameter of `RxByte`, the packet for on_receive_fn a result. Null on_receive_fn does not occur.
- DeferredPacketHandlers.DeferredPacketHandler.ProcessPendingPackets: returns the calls of the actions in order instead of making them; `Comm.OrazioComm.RunActions` makes them afterwards. No action reads a buffer other than its own packet's, so the order of the ring steps between them is not visible.
- Comm.OrazioComm.ParamSet: the re-initialisation of the H-bridge is register plumbing, and the odometry kept by `DriveController` is real-valued state of its own; the bytes of the drive status packet are modelled.
- Param.ParamStore.ParamLoad: the call of Orazio_paramSet after a successful load is modelled in `Comm`, not here, because it touches neither the parameters nor the EEPROM.
- Comm.OrazioComm.CommHandle: the counters are not serialised into the bytes of the system status packet; status payloads are whatever the variables hold. It takes the input that arrives until the UART runs empty as one sequence; the UART rings under interrupts are modelled on their own.
- Client.OrazioClient.ReadPacket: where the source blocks for ever on a silent line the model returns false.
- Client mutexes: each call is one atomic piece. OrazioClient_get only copies a mirrored packet.
- Watchdog: writes of 16-bit fields are single steps, although the 8-bit controller takes two instructions for them; the cycles spent between ticks and idle_cycles are not modelled.
- MainLoop.Server.CountSilence: an int16_t count below -32768 is taken to wrap to 32767, as the targets' compilers do; the C standard leaves it undefined.
- Drive works on real numbers: no float rounding; sine and cosine appear as a pair (s, c), of which `Drive.StepLength` and `Drive.StepIsArc` assume s^2 + c^2 = 1. M_PI is the decimal constant.
- DriveController.DifferentialDriveController.Control: the conversion to int16_t truncates but does not wrap, so commanded speeds beyond 32767 ticks are not modelled.
- Joint.JointController: pwm and current sensing are plain fields; Orazio_hBridgeApplyControl and the H-bridge drivers are register plumbing.
- No ordering between drive and joint commands of one batch is claimed: a drive packet re-enables the drive in the next cycle even if a joint packet followed it.
- Hardware set-up, timers, PWM, digital I/O, the dsPIC UART and its flash emulation, serial port, shell, websocket server and packet printing.
