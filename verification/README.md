# LitePCIe PTM: a Dafny model

This project models the parts of the LitePCIe driver, its user library and its gateware
in which data integrity and timing do not follow from any single function, and proves
what they promise together. `dafny verify dfyconfig.toml` checks all of it (Dafny 4.11).

## What is modelled

**The DMA ring.** The FPGA moves 8 KiB buffers into (receive) or out of (transmit) a ring
of 256 slots, byte by byte, without ever waiting for the software. An interrupt every 32
buffers makes the handler rebuild a 64-bit buffer count from a 16-bit loop counter and a
16-bit index. `litepcie_read` and `litepcie_write` move a software count under a margin of
half the ring. `Engine` describes the FPGA and the handler as an arbitrary sequence of
events: nothing restricts when a byte moves or when an interrupt is handled, so interrupts
may be late, lost, merged or spurious. A *world* is such a sequence together with an
arbitrary number of events before each access of the software to shared state
(`Interleave`); what access k finds is `Seen(w, k)`.

`RxRing` and `TxRing` hold the driver's code as classes over the real memory, `RxPort` and
`TxPort` the two halves of the user library's control block, and `Record`, `Play` and
`Transmit` run whole sessions on top: what ends up in the file, or on the wire. Every
contract fixes the whole outcome as a function of the world and the inputs: which buffers
are found, lost, copied or filled, at which access (`RxSchedule`, `TxSchedule`, and the
`*Run` functions), and, byte by byte, what a copy yields and what the FPGA sends even if
the engine and the software race for a slot (`RxSchedule.Copied`, `TxRing.Standing`). The
theorems are then about those functions, and their conditions are on the world alone:
handler latency L, and at most C buffers completing during one copy, or during one turn of
the program, sleep in `poll()` or in the driver included. `Clients` has four programs that
sleep until there is something to do, move three buffers a turn, and meet these conditions
for any number of turns.

**Ownership of a direction** (`Locks`), over every sequence of lock calls and closes by any
number of files. **The PTM dialog** (`Ptm`) with its estimate in wrapping 64-bit
arithmetic. **The flash update** (`Flash`) over a serial NOR chip whose erase and program
results are left open byte by byte (`NorFlash`). **The pulse per second** (`Pps`), clock
tick by clock tick. **The loopback pattern** and its delay search (`Pattern`), on 32-bit
words.

Bit operations of the driver are modelled as bit operations (`Bits`, and machine words in
`Descriptors` and `Pattern`), not as the arithmetic they amount to; that is proved.

## What the code does not keep

Some expectations one may have of this code are false. For each, the project keeps the
code as it is, shows a case, and proves exactly when the expectation is met.

- A handler that is always on time does not make `litepcie_read` safe: a copy may be held
  up between the margin test and its last byte. `Torn.TornRead` calls it in such a world
  and gets a buffer with every byte wrong and nothing reported. The first n bytes of a copy
  are the buffer's own, whatever the stream, exactly if the engine is not back at one of
  them before it is copied (`RxSchedule.CopyRightIff`); and with handler latency L and at
  most C buffers completing during a copy this cannot happen exactly if 32 + L + C < 128
  (`Margin.MarginIsTight`).
- On the transmit side nothing tells the software that it was too slow: a buffer may be
  accepted and yet be sent before it is filled. Its first n bytes are sent as given,
  whatever they are, exactly if the engine takes none of them before it is stored
  (`TxRing.FillRightIff`); a lead over the driver's count is enough for that exactly if it
  is more than 32 + L + C (`Margin.LeadIsTight`). So the first C + 1 buffers of a session
  may go wrong.
- Playing a file of at least half a buffer does not fill every buffer, although one rewind
  could: the position creeps up. Every buffer is filled iff the file has at least 8192
  bytes (`Play.EveryBufferFullIff`), and for a smaller file `Play.SmallFileFullIff` says
  for how many buffers it lasts.
- The estimate of the first cross-timestamp after the probe is wrong unless the two halves
  of T1 happen to be equal, because the probe joins them the wrong way round
  (`Ptm.FirstStamp`). A call that times out spoils the next one
  (`Ptm.TimeoutBreaksPairing`): the estimate then uses the round trip of an older dialog and
  is right exactly if both halved round trips agree (`Ptm.StaleRightIff`), on a link of
  constant delay exactly if the master took as long to answer then, or 1 ns longer
  (`Ptm.StaleRightOnLink`).
- Erasing goes by 64 KiB steps from the base, not by the sectors the range touches, so the
  end of an image at an unaligned base may not be erased (`Flash.UnalignedFallsShort`;
  `Flash.AllErasedIff` has the exact condition). On a chip that only clears bits the
  update then succeeds exactly if the bytes left out happen to have the bits set that
  the image needs (`Flash.Tool.Write`).
- The DMA lock stays exclusive along a run iff nobody releases what another file holds
  (`Locks.RunExclusiveIff`), and the library cannot see to that, because it reports success
  to a second client that only wants the writer (`Locks.SuccessMisreportedIff`).
- Pulses are exact only until the 32-bit second counter wraps; from then on the output
  stays high (`Pps.StuckAfterWrap`).
- A non-blocking write is refused when the window is entirely free (`TxSchedule.Refused`,
  the condition in `TxRing.TxChannel.Write`).
- A client that leaves buffers of a mapped ring behind is handed slots out of step, unless
  what it left makes whole laps (`RxPort.HandOut`).
- A size of 0 does not record without end but records nothing: the file is never longer
  than the size (`Record.RecordFile`).

The delay search, on the other hand, is exact for all data widths for which the mask is
defined, 1 to 16, powers of two or not (`Pattern.SeedsDistinct`).

## Assumptions

- The loop_status register shows how many buffers are completed, the engine completes
  buffers in ring order, and an interrupt is raised when a buffer whose descriptor allows
  it completes. LitePCIe's gateware is not part of this model.
- A run reaches from one start of a direction to its stop. Counts are unbounded; the real
  ones would overflow after 2^63 buffers.
- One invocation of the interrupt handler is one step. `Counter.MidwayNeverAhead` and
  `Counter.MidwayFoolsMarginIff` say what a reader on another processor could see in between.
- The requester core shows the registers of the latest completed dialog and reports
  t3 - t2 one dialog late; a dialog still running when the next is triggered is over by then.
- The flash chip starts idle and its busy bit clears; addresses have 24 bits. The flash
  core is an option of the build and absent from this repository's register map.
- The pulse timer reloads when not waiting and else counts down to zero and holds.

## Model

| member | source | states |
|---|---|---|
| Bits.AndClearsLow | software/kernel/main.c:353 | masking with a negative power of two clears exactly the low bits |
| Bits.OrDisjoint | software/kernel/main.c:354 | OR-ing the low part into a masked count adds it |
| Counter.StatusCarriesLowBits | software/kernel/csr.h:138-141 | what the handler takes from the register is the true count modulo 2^24 |
| Counter.ReconstructIsLeast | software/kernel/main.c:353-356 | the handler's bit operations find the least count not below the last one that agrees with the register |
| Counter.ReconstructAdvance | software/kernel/main.c:353-356 | a sample never passes the true count and equals it iff fewer than 2^24 buffers completed since the last |
| Counter.MidwayNeverAhead | software/kernel/main.c:369-373 | the values stored on the way to a new count are never above it |
| Counter.MidwayFoolsMarginIff | software/kernel/main.c:369-372 | a reader too far behind passes the margin test on the first of them iff it is within the margin of the last multiple of 2^24 |
| Descriptors.InterruptingEvery32 | software/kernel/main.c:208-220 | in the endless replay of the table, buffer b interrupts iff 32 divides b |
| Descriptors.OneIrqPerStride | software/kernel/main.c:208-220 | any 32 consecutive buffers hold exactly one interrupting one |
| Descriptors.SplitAndJoin | software/kernel/main.c:216-219 | a bus address survives being written in two halves |
| Descriptors.Table.Start | software/kernel/main.c:204-229 | after the start sequence the engine loops over 256 descriptors with the buffers' addresses, 8 KiB each, none of them ending a transfer and one in 32 interrupting |
| Engine.RunOrdered | software/kernel/main.c:350-357 | in every run the driver's count equals its saved copy and never passes the true count |
| Engine.RunMonotone | software/kernel/main.c:350-357 | in every run neither the true nor the driver's count goes back |
| Engine.CountExactIffGapsShort | software/kernel/main.c:367-373 | in every run the 64-bit count equals the true count at the last sample iff every gap between samples was below 2^24 buffers |
| Engine.CadenceBoundsLag | software/kernel/main.c:208-220 | with handler latency L the driver's count trails the true one by at most 32 + L, in every run |
| Engine.SeenLag | software/kernel/main.c:208-220 | with latency L, at every access of the driver the count it finds is at most 32 + L behind the true one |
| Engine.PromptHandlerKeepsMargin | software/kernel/main.c:208-220 | a latency of at most 95 buffers keeps the lag within 127 |
| Memory.IntactIffHeld | software/kernel/main.c:475-477 | an address is certain to hold a given stream byte iff that byte came in and less than a ring of bytes after it |
| Memory.OccupantHeld | software/kernel/main.c:475-477 | which buffer stands in a slot, for any number of bytes moved, and that it is the wanted one iff less than a ring of bytes followed |
| Memory.StoreKeepsHolds | software/kernel/main.c:208-220 | storing the next stream byte in its slot keeps every byte of the last ring's length in place |
| RxRing.RxChannel.Interrupt | software/kernel/main.c:366-373 | the handler's assignments give the reconstructed count and save it |
| RxRing.RxChannel.Interleave | software/kernel/main.c:317-388 | before an access, any number of engine steps and interrupts keeps the ring's memory and counts consistent with the run |
| RxRing.RxChannel.CopyToUser | software/kernel/main.c:475-477 | byte by byte, the copy is of whichever buffer stands in the slot at that access, and nothing else is touched |
| RxRing.RxChannel.ReadOne | software/kernel/main.c:470-487 | one turn of the read loop: which of two accesses decides what, lost iff more than half a ring behind the count tested, else copied by the next 8192 accesses |
| RxRing.RxChannel.Read | software/kernel/main.c:444-497 | for every world: a blocking call is refused iff none of its looks finds a buffer, and else returns at least one if there is room for it; a non-blocking one is refused iff the counts are equal; bytes returned, buffers lost and consumed and accesses made are those of Reading, user memory holds exactly what the copies yield, in order, and every copy the engine did not overtake is the stream's buffer |
| RxSchedule.WaitEnds | software/kernel/main.c:461-462 | a wait ends at the first look that finds a buffer, or, if none does, at the last one |
| RxSchedule.RefusedIff | software/kernel/main.c:455-465 | a blocking read is refused iff every look up to the signal finds nothing, a non-blocking one iff the counts are equal at its look |
| RxSchedule.ReadingStarts | software/kernel/main.c:455-470 | the loop starts at the first look that finds a buffer; a refused call does nothing but look |
| RxSchedule.WaitsForOne | software/kernel/main.c:461-487 | a blocking read with room for a buffer that is not refused consumes one |
| RxSchedule.ReadingEnds | software/kernel/main.c:470-496 | a read that returns less than it has room for found nothing more at its last access, and how many accesses it made |
| RxRing.DeliverNext | software/kernel/main.c:471-483 | one more turn extends what was delivered without disturbing it |
| RxSchedule.CopyRightIff | software/kernel/main.c:475-477 | the first n bytes of a copy are the buffer's for every stream iff the engine was not back at one of them before it was copied |
| RxSchedule.YoungIsSafe | software/kernel/main.c:475-477 | a copy that ends before a ring of buffers is complete after its buffer is not overtaken |
| RxSchedule.ReadingBooks | software/kernel/main.c:467-496 | every buffer a read consumes is lost, being over half a ring behind, or copied, being no more than that, and their numbers add up |
| RxSchedule.SteadyReading | software/kernel/main.c:467-496 | with an unchanging count a read for n buffers consumes min(n, backlog) and loses min(n, max(0, backlog - 128)) |
| Margin.MarginIsEnough | software/kernel/main.c:472-477 | a copy that the margin test admits is not overtaken if 32 + L + C < 128 |
| Margin.MarginIsTight | software/kernel/main.c:467-496 | and that bound is exact: for every L and C, no call of read in any world of that latency, with copies that quick, copies a buffer that is overtaken iff 32 + L + C < 128 |
| Margin.ReadingInTime | software/kernel/main.c:467-496 | so with a quick handler, and its copies quick, nothing a read copies is overtaken |
| Torn.TornRead | software/kernel/main.c:471-477 | a read in a world whose handler is never late: one buffer returned, none reported lost, every byte wrong |
| RxRing.RxChannel.PollIn | software/kernel/main.c:610-611 | readable means more than two buffers waiting |
| TxRing.TxChannel.Interrupt | software/kernel/main.c:350-357 | the handler's assignments give the reconstructed count and save it |
| TxRing.TxChannel.Interleave | software/kernel/main.c:317-388 | any number of engine steps and interrupts keeps ring and wire as the stores made so far say, byte by byte |
| TxRing.StoreByte | software/kernel/main.c:530-531 | storing a byte of the buffer being filled puts it, and nothing else, in the slot, whichever buffer the engine has got to |
| TxRing.SendByte | software/kernel/main.c:525-541 | the byte the FPGA takes next is the last one stored at its place by then |
| TxRing.TxChannel.WriteOne | software/kernel/main.c:525-541 | one turn of the write loop: an underflow iff behind the count tested, else filled by the next 8192 accesses with the data offered |
| TxRing.TxChannel.Write | software/kernel/main.c:499-551 | for every world: a blocking call is refused iff none of its looks finds room, and else takes at least one buffer if one is offered; a non-blocking one is refused iff the counts are equal; return value, accesses, underflows and buffers filled are those of Writing, each filled with the data offered for its place |
| TxSchedule.WaitEnds | software/kernel/main.c:515-516 | a wait ends at the first look that finds room, or, if none does, at the last one |
| TxSchedule.RefusedIff | software/kernel/main.c:509-520 | a blocking write is refused iff every look up to the signal finds 128 buffers or more ahead, a non-blocking one iff the counts are equal at its look |
| TxSchedule.WritingStarts | software/kernel/main.c:509-525 | the loop starts at the first look that finds room; a refused call does nothing but look |
| TxSchedule.WaitsForOne | software/kernel/main.c:515-537 | a blocking write of a buffer or more that is not refused takes one |
| TxSchedule.WritingEnds | software/kernel/main.c:525-550 | a write that takes less than it is offered found no more room at its last access, and how many accesses it made |
| TxSchedule.WritingBooks | software/kernel/main.c:522-550 | every buffer a write consumes is late, being behind the count, or filled, being less than half a ring ahead of it, and their numbers add up |
| TxSchedule.SteadyWriting | software/kernel/main.c:522-550 | with an unchanging count at a lead b a write of n buffers takes min(n, max(0, 128 - b)) and counts the -b first of them as underflows |
| TxSchedule.FarAheadIsSafe | software/kernel/main.c:525-541 | of what a call took, every buffer more than 32 + L ahead of the count is safe |
| TxSchedule.LeadIsEnough | software/kernel/main.c:525-541 | a buffer begun more than 32 + L + C ahead of the count is filled before the engine comes to it |
| Margin.LeadIsTight | software/kernel/main.c:525-541 | and that bound is exact, over all worlds of that latency (below 2^24 - 32) and all fillings that quick |
| TxSchedule.WritingAhead | software/kernel/main.c:499-551 | a blocking write of a ring or more, with at most C buffers completing from the last look that found no room to its end, leaves the engine half a ring behind, less the lag, and all but the first C + 1 buffers safe |
| TxRing.SafeIsSent | software/kernel/main.c:525-541 | of a buffer that was not caught exactly its data is sent |
| TxRing.FillRightIff | software/kernel/main.c:530-531 | the first n bytes of a filled buffer are sent as given, whatever they are, iff the engine takes none before it is stored |
| TxRing.TxChannel.PollOut | software/kernel/main.c:613-614 | writable means less than half a ring ahead |
| Transmit.RunSession | software/kernel/main.c:499-551 | over any sequence of writes: each return value, every byte sent, and that of every buffer filled before the engine comes to it the bytes offered at its place are sent; in a session that stays ahead that is all but the first C + 1 buffers |
| Transmit.TakenByOne | software/kernel/main.c:499-551 | every buffer of the stream was taken by exactly one call |
| Transmit.SessionAhead | software/kernel/main.c:515-541 | a blocking session of rings or more stays ahead for as long as each call, once there is room, is quick: 32 + L + C < 128, however long it waits before |
| Clients.WriterStaysAhead | software/kernel/main.c:515-541 | a writer that sleeps until three buffers are free stays ahead through any number of calls |
| RxPort.Port.Process | software/user/liblitepcie/litepcie_dma.c:154-196 | a process call replaces what was on offer by what read() or the snapshot brings, skipping exactly the buffers the client had not taken, and changes nothing on a timeout |
| RxPort.PollBrings | software/user/liblitepcie/litepcie_dma.c:162-192 | what a process call brings: nothing below three buffers, else over the mapped ring all up to the snapshot, or what one read of 1 to 256 buffers brings |
| RxPort.Port.FetchByRead | software/user/liblitepcie/litepcie_dma.c:186-192 | after read() the buffers on offer are the stream's next ones, each lost or standing in user memory as its copy yielded it |
| RxPort.Port.FetchByMap | software/user/liblitepcie/litepcie_dma.c:177-184 | the buffers on offer start where the kernel's count stood |
| RxPort.Port.NextReadBuffer | software/user/liblitepcie/litepcie_dma.c:223-231 | hands out the stream's next buffer at its slot, or nothing iff none is left |
| RxPort.Port.Consume | software/user/litepcie_test.c:76 | what the client takes is what the driver's copy, or its own copy from the mapped ring access by access, yields |
| RxPort.HandOut | software/user/liblitepcie/litepcie_dma.c:176-231 | for any client and any rounds, timeouts and wakeups: the k-th slot handed out is k plus the buffers left out before, in step iff those make whole laps; a client that drains is handed, without gap or repeat, all that the kernel's count moved past |
| RxPort.RunCounted | software/user/liblitepcie/litepcie_dma.c:176-231 | every buffer the kernel's count passed is handed out, dropped or on offer |
| RxPort.DrainedDropsNone | software/user/liblitepcie/litepcie_dma.c:176-231 | a client that takes all there is never misses one |
| RxPort.SomeHanded | software/user/liblitepcie/litepcie_dma.c:223-231 | a client is handed the buffers it takes as far as there are any, each after the same number left out |
| TxPort.WindowSlots | software/user/liblitepcie/litepcie_dma.c:199-208 | a granted window is at most 128 unless overtaken, avoids slots still to be sent, and repeats none iff the FPGA is at most 128 past the kernel's count |
| TxPort.Port.Process | software/user/liblitepcie/litepcie_dma.c:199-220 | a process call that finds room grants the window from the kernel's count to half a ring ahead of the snapshot, and changes nothing on a timeout |
| TxPort.PollGrants | software/user/liblitepcie/litepcie_dma.c:199-220 | what a process call grants: nothing with half a ring or more filled, else all up to half a ring ahead of the snapshot |
| TxPort.Port.NextWriteBuffer | software/user/liblitepcie/litepcie_dma.c:233-241 | hands out the slots in stream order, or nothing iff none is left |
| TxPort.Port.Store | software/user/litepcie_test.c:157-165 | the buffer handed out is filled with the data, byte j at the j-th access from here on, and no other |
| Record.Recorder.Store | software/user/litepcie_test.c:74-81 | the file grows by what the copy yielded, to the wanted size and no further, and the recorder stops with the buffer that completes it |
| Record.Recorder.Loop | software/user/litepcie_test.c:58-82 | so many turns are those of RecordRun; with the file complete nothing is done any more, neither to the file nor to the ring |
| Record.TurnTakes | software/user/litepcie_test.c:63-82 | what a turn takes: nothing below three buffers, else over the mapped ring all up to the snapshot, in copy mode what one read consumes, a ring or all there is |
| Record.DrainedAt | software/user/litepcie_test.c:66-78 | draining a mapped ring begins each buffer right after the last, one access for each byte the file gets |
| Record.StaysComplete | software/user/litepcie_test.c:60-82 | once the wanted size is reached later turns take no buffer and make no access |
| Record.RecordFile | software/user/litepcie_test.c:33-108 | for every stream and world, in both modes: length and losses reported are those of RecordRun, the recording is complete iff the file has the wanted size, the file is byte for byte what the copies yielded, hence the stream's beginning except at lost and overtaken buffers; in copy mode nothing is overtaken if each copy is quick, 32 + L + C < 128; in both modes a recorder that keeps up records exactly the stream |
| Record.CopiesUntorn | software/user/litepcie_test.c:58-82 | in copy mode a quick handler and quick copies are enough, whatever goes on between the reads |
| Record.RecordFresh | software/user/litepcie_test.c:58-82 | no buffer is ever lost or overtaken in a recording if, turn after turn, at most C buffers complete: in copy mode during a turn, 34 + L + C <= 128; over the mapped ring from a turn's snapshot to the end of the next turn, 34 + L + C < 256 |
| Clients.MappedKeepsUp | software/user/litepcie_test.c:58-82 | a recorder over the mapped ring that sleeps in poll() keeps up and records three buffers a turn, for any number of turns |
| Clients.CopyingKeepsUp | software/user/litepcie_test.c:58-82 | so does one in copy mode |
| Play.PassesAndRest | software/user/litepcie_test.c:157-165 | for a file of a buffer or more, all buffers together are whole passes over it and a rest, and every buffer is full |
| Play.SmallFileFullIff | software/user/litepcie_test.c:157-165 | for a smaller file, exactly how many buffers are full |
| Play.EveryBufferFullIff | software/user/litepcie_test.c:157-165 | every buffer is full iff the file has at least 8192 bytes |
| Play.HalfBufferFileFallsShort | software/user/litepcie_test.c:157-165 | a file of 4096 bytes fills the first buffer and not the second |
| Play.ChunkIsLooped | software/user/litepcie_test.c:157-165 | buffer k holds bytes 8192 k and on of the file repeated forever |
| Play.ShareGoesOn | software/user/litepcie_test.c:157-165 | for a file of any length each buffer goes on in the repeated file where the last one ended, and how much it gets |
| Play.TurnFillsAll | software/user/litepcie_test.c:138-166 | what a turn fills: nothing without room, else all up to half a ring ahead of the snapshot |
| Play.FilledAt | software/user/litepcie_test.c:147-165 | filling a window begins each buffer right after the last, one access for each byte from the file |
| Play.StaysFinished | software/user/litepcie_test.c:138-166 | once played as often as wanted, later turns do nothing |
| Play.Player.ReadFile | software/user/litepcie_test.c:157-165 | one fread, at the end of the file a rewind and one more, and the loop count |
| Play.PlayFile | software/user/litepcie_test.c:113-194 | for every file and world: every byte sent, the loop count, completion, and that buffers filled before the engine comes to them are sent as their share of the file; in a playback that stays ahead of a file of a buffer or more, all that is sent after the first C + 1 buffers is the file repeated forever |
| Play.PlayLeads | software/user/litepcie_test.c:138-166 | every buffer but the first C + 1 is filled before the engine comes to it if, turn after turn, at most C buffers complete from a window's snapshot until the next window is filled, 32 + L + C < 128 |
| Clients.PlayerStaysAhead | software/user/litepcie_test.c:138-166 | a player that sleeps in poll() stays ahead and plays three buffers a turn, for any number of turns |
| Locks.IoctlExclusiveIff | software/kernel/main.c:841-867 | a lock call keeps exclusion iff it releases nothing another file holds |
| Locks.CloseKeepsExclusive | software/kernel/main.c:416-442 | closing keeps exclusion and leaves the file with nothing |
| Locks.RunExclusiveIff | software/kernel/main.c:841-867 | along any run the lock is set iff exactly one file carries the flag, iff every caller releases only its own |
| Locks.LockCalls | software/kernel/main.c:841-867 | what each lock call and close does to the lock, the caller's flag and everybody else's |
| Locks.HandOver | software/kernel/main.c:841-867 | a free direction goes to whoever asks, a held one to nobody else, and once released or closed by its holder to the next who asks |
| Locks.HolderKeeps | software/kernel/main.c:841-867 | along a run in which nobody releases what is another's, a holder keeps the direction alone until it releases it itself or is closed |
| Locks.Channel.Lock | software/kernel/main.c:831-867 | the lock call acts on both directions alike, request before release, and reports each |
| Locks.Channel.Release | software/kernel/main.c:416-442 | close unlocks and disables exactly the directions the file holds |
| Locks.Channel.RequestDma | software/user/liblitepcie/litepcie_dma.c:44-52 | the library's answer speaks for the reader only |
| Locks.SuccessMisreportedIff | software/user/liblitepcie/litepcie_dma.c:44-86 | exactly when a client is told it succeeded without having what it asked for |
| Locks.MisreportedCleanupBreaksLock | software/user/liblitepcie/litepcie_dma.c:132-139 | the cleanup of such a client unlocks the owner's direction, and a third file gets it too |
| Ptm.Driver.Exchange | software/kernel/main.c:1144-1156 | a dialog succeeds iff one of 100 status reads finds it done |
| Ptm.Driver.constructor | software/kernel/main.c:1459-1477 | the probe saves t4 of the dialog the registers show, its second unless that took too long, and t1 with its halves exchanged |
| Ptm.Driver.GetSyncDeviceTime | software/kernel/main.c:1125-1184 | on success the stamp is t1 with the estimate from the saved values, and the dialog's t1 and t4 are saved; on a timeout nothing is |
| Ptm.Driver.Serve | software/kernel/main.c:1125-1184 | over any number of calls, each success pairs its own t2, and t3 - t2 of the dialog before, with t1 and t4 of the last dialog answered in time |
| Ptm.KeptIsLast | software/kernel/main.c:1153-1181 | the saved values are of the last dialog answered in time, or those at the start |
| Ptm.ServedProperly | software/kernel/main.c:1144-1181 | a call that follows a successful one uses t1, t4 and t3 - t2 of one and the same dialog |
| Ptm.EstimateIsTextbook | software/kernel/main.c:1170 | the wrapping arithmetic gives t2 - ((t4 - t1) - (t3 - t2)) / 2, for every position of the clocks |
| Ptm.ProperStampError | software/kernel/main.c:1144-1181 | a paired stamp is off by at most the spread of the one-way delays, and exact on a constant symmetric link |
| Ptm.FirstStamp | software/kernel/main.c:1459-1477 | probe and first call together: the stamp is as it should be iff the halves of the probe's T1 are equal |
| Ptm.StaleRightIff | software/kernel/main.c:1153-1181 | after timeouts the estimate is right iff the halved round trip of the dialog saved equals that of the one before |
| Ptm.StaleRightOnLink | software/kernel/main.c:1153-1181 | on a link of constant delay that is so iff the two answers took equally long, or the older one 1 ns longer |
| Ptm.TimeoutBreaksPairing | software/kernel/main.c:1153-1181 | after a timeout the next estimate can be wrong on a link without any delay |
| NorFlash.PageWritesStraightIff | software/user/liblitepcie/litepcie_flash.c:86-113 | a page program goes where it is meant to iff the address is a page address |
| NorFlash.Chip.Spi | software/kernel/main.c:624-645 | a transfer outside 8 to 40 bits fails, any other clocks its bytes through the chip |
| Flash.CommandBytes | software/user/liblitepcie/litepcie_flash.c:29-39 | the chip decodes command, address and data from the words the library builds |
| Flash.Tool.FlashSpi | software/user/liblitepcie/litepcie_flash.c:29-39 | one framed command, with or without software chip select |
| Flash.Tool.WaitReady | software/user/liblitepcie/litepcie_flash.c:222-223 | polling ends with the chip ready and unchanged |
| Flash.Tool.WriteBuffer | software/user/liblitepcie/litepcie_flash.c:86-113 | the chip programs the given bytes at the given address |
| Flash.Tool.ReadBuffer | software/user/liblitepcie/litepcie_flash.c:120-148 | yields the flash contents and changes nothing |
| Flash.Tool.GetProgramSize | software/user/liblitepcie/litepcie_flash.c:155-167 | a page iff chip select can be driven, without disturbing the chip |
| Flash.Tool.Erase | software/user/liblitepcie/litepcie_flash.c:192-201 | erases each sector reached from the base in steps of 64 KiB below the size, in that order, and touches no other address |
| Flash.SectorsIs | software/user/liblitepcie/litepcie_flash.c:192 | the erase loop makes round m iff m times 64 KiB is below the size |
| Flash.EraseRunIs | software/user/liblitepcie/litepcie_flash.c:192-201 | what the loop leaves at every address of the chip |
| Flash.AllErasedIff | software/user/liblitepcie/litepcie_flash.c:192-201 | exactly for which bases and sizes all of the range is erased, among them every base on a sector boundary |
| Flash.UnalignedFallsShort | software/user/liblitepcie/litepcie_flash.c:192-201 | a sector's worth of data from the second page of a sector on is not all erased |
| Flash.NorOutcome | software/user/liblitepcie/litepcie_flash.c:216-249 | on a chip that clears bits only the program loop writes everything iff each byte already has the bits set that it needs set |
| Flash.WritePage | software/user/liblitepcie/litepcie_flash.c:226-242 | writing a page leaves every page verified before as it is |
| Flash.Tool.WriteAndVerify | software/user/liblitepcie/litepcie_flash.c:221-242 | one attempt: the flash is programmed at the page, and the loop goes on iff it holds the page then |
| Flash.RetriesAreFailures | software/user/liblitepcie/litepcie_flash.c:216-249 | the retries counted are the last attempts made, all at one page and each leaving it wrong, and no page takes more than 17 |
| Flash.Tool.Write | software/user/liblitepcie/litepcie_flash.c:169-256 | ends; the flash is what erasing and so many attempts make of it, no more of them than it takes to write all or to fail 17 times in a row at one page, and 1 is returned iff that; on 0 the range equals the buffer whatever the chip did, nothing outside the erased sectors and the range changes, a sound chip takes one attempt a page if the range is erased, as from a sector boundary on, and a chip that clears bits only is written iff the bytes not erased allow it |
| Pps.PpsGenerator.Tick | gateware/pps.py:22-42 | one clock edge of both modules, idle or running |
| Pps.RunsIff | gateware/pps.py:26-30 | under any inputs the generator runs from the tick after the first time other than 0 on, and does nothing before |
| Pps.Wakes | gateware/pps.py:26-30 | freely ticking it runs after one tick, from time 0 after two |
| Pps.StartIs | gateware/pps.py:31-33 | a pulse starts iff it runs and the time is past the count in seconds and a half |
| Pps.StartsCounted | gateware/pps.py:33 | under any inputs the counter counts the starts in 32 bits |
| Pps.OutputIff | gateware/pps.py:39-42 | under any inputs the output is high exactly in the 10,000,000 ticks after a start and while the timer runs down from reset |
| Pps.PowerOnWave | gateware/pps.py:22-42 | from reset on, with free ticks: high for 200 ms, the first pulse after half a second, one each second after that, for 2^32 - 2 seconds |
| Pps.TimeSinceSet | gateware/time.py:37-48 | under any inputs the time is what it was last set or cleared to plus 20 ns a tick since, modulo 2^64 |
| Pps.PpsGenerator.Run | gateware/pps.py:22-42 | the output over any number of ticks of any inputs is that of the run |
| Pps.PulsesExact | gateware/pps.py:26-42 | pulses start exactly every 50,000,000 ticks and are high for exactly 10,000,000 |
| Pps.CatchesUp | gateware/pps.py:31-36 | after a forward jump a pulse starts in every tick until caught up, and exactly how many ticks that takes |
| Pps.WaitsThenFresh | gateware/pps.py:31-36 | after a backward jump no pulse starts until the old time has passed again |
| Pps.SettlesFrom | gateware/pps.py:26-42 | from any state, idle or running, exact pulses resume within a bounded number of ticks |
| Pps.StuckAfterWrap | gateware/pps.py:20-36 | once the second counter wraps a pulse starts in every tick |
| Pattern.GetNextPow2 | software/user/litepcie_util.c:280-286 | the least power of two that is not below the width |
| Pattern.GetDataMask | software/user/litepcie_util.c:301-311 | bit i of the mask is set iff i modulo the lane is below the width |
| Pattern.BitMask | software/user/litepcie_util.c:301-311 | so for every width up to 16 and every bit |
| Pattern.NarrowMasks | software/user/litepcie_util.c:301-311 | the mask for the narrowest width of every lane size |
| Pattern.SeedsDistinct | software/user/litepcie_util.c:290-308 | for all widths 1 to 16, different seeds below 2048 give different words under the mask |
| Pattern.RotationsApart | software/user/litepcie_util.c:272-278 | two rotations of the pattern have different seeds at every place |
| Pattern.RotationsShareErrors | software/user/litepcie_util.c:327-343 | between two rotations every word of any buffer counts as an error at least once |
| Pattern.CleanBufferFitsOneSeed | software/user/litepcie_util.c:327-343 | an uncorrupted buffer fits its own rotation everywhere and any other nowhere |
| Pattern.WholeTurn | software/user/litepcie_util.c:272-278 | 2048 words lead back to the seed they began with |
| Pattern.SeedIs | software/user/litepcie_util.c:272-278 | the n-th seed after s is s + n modulo 2048 |
| Pattern.WordIs | software/user/litepcie_util.c:290-321 | a word is 69069 times its seed plus 1, under the mask |
| Pattern.ErrorsCount | software/user/litepcie_util.c:335-339 | the checker's count is the number of places where the buffer differs from the pattern |
| Pattern.WritePnData | software/user/litepcie_util.c:313-325 | word i is that of seed + i modulo 2048, what is written checks without error from the same seed, and the seed moves on as the checker's does |
| Pattern.CheckPnData | software/user/litepcie_util.c:327-343 | counts the places of the buffer that differ from the pattern |
| Pattern.FindDelay | software/user/litepcie_util.c:420-439 | stops at delay t iff fewer than half the words differ from the pattern rotated by t, for any buffer, so it finds the true delay of any buffer with fewer than 1024 bad words and no other |

## Left out

- Flash.Tool.Write: requires base and size to be whole pages when chip select is under software control, as a page program wraps inside its page otherwise (NorFlash.PageWritesStraightIff), and an idle chip at the start; the progress callback is left out.
- Pattern.GetDataMask: requires a width of at most 16, because for a wider one the code shifts a 32-bit word by 32 places, which C leaves undefined.
- Record.RecordFile: a file write is taken to write all it is given.
- Play.PlayFile: plays over the mapped ring only, because of the next line.
- Order of the transmit stream in copy mode: litepcie_dma_process sends its buffer from the start every time, so blocks are resent or reordered when the driver accepts fewer than offered.
- A failed copy to or from user space, which drops the progress made so far, and the error test after poll() that tests the function's name.
- The two halves of litepcie_dma_process are modelled apart; what the other half contributes to poll() returning is a parameter.
- Stopping and restarting a direction, the loopback switch, buffer and memory mapping set-up, and several channels.
- The interrupt dispatch by vector and enable mask, wait queues and wakeups; a blocked call looks again any given number of times and is then interrupted.
- Probe, removal, character devices, PTP timespec conversion, cross-timestamp interpolation, the UART driver and register access tools.
- Crossing of clock domains, the PTM sniffer and packet decoding, and the SoC build.
- Statistics, command lines and messages of the utilities.
