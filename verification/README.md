# Stepper-motor board firmware: a model and its proofs

The firmware drives a stepper motor through four half bridges and talks to a host over UART
and USB. This project models its stateful parts in Dafny and proves what they keep over whole
runs. Each part comes as a specification on values (datatypes and functions), lemmas about all
its runs, and a class whose methods follow the source statement by statement and are proved
against that specification. `dafny verify dfyconfig.toml` checks everything.

| part | files |
|---|---|
| fixed-width words, byte orders, packets, block arithmetic | `Words`, `Packets`, `Blocks` |
| mass storage: stage machine, commands, one-packet answers, data phases, what a host gets, the device object | `BulkOnly`, `BulkOnlyCommands`, `BulkOnlyAnswers`, `BulkOnlyWrite`, `BulkOnlyVerify`, `BulkOnlyRead`, `BulkOnlyHost`, `UsbMsd` |
| mass storage over all runs: answers, memory safety, conservation, progress | `BulkOnlySafety`, `BulkOnlyBounds`, `BulkOnlyBalance`, `BulkOnlyProgress` |
| control transfers on endpoint 0, event by event, over many setups, descriptor walk | `ControlTransfer`, `ControlEvents`, `ControlRuns`, `UsbDevice`, `Descriptors` |
| stepper controller, its tables and its PWM timer, what a command comes to, the single writes of a tick | `StepTables`, `PwmTimer`, `Stepper`, `StepperCommands`, `StepperWrites`, `Smc` |
| the two ring buffers and the queue both implement | `BoundedQueue`, `Xifo`, `CircBuffer`, `QueueEquivalence` |
| USB RAM allocation, word packing, mouse reports | `UsbRam`, `WordPacking`, `Mouse` |

How the parts are set up:

- **Mass storage.** A callback takes the device from one value to the next; what it hands to the
  bulk endpoints and which commands it accepts is kept in a log. The disk is a string of whole
  blocks that is only read and written a block at a time; a block number behind the end is
  answered, reading leaves the page alone and writing is ignored. `Disk.Valid` says what geometry
  is assumed: blocks are a multiple of 64 bytes, the disk is whole blocks, and one packet beyond
  its end is still a 32-bit address. All arithmetic on addresses, lengths and residues wraps at
  32 bits as in the source. A packet of at most 64 bytes is always accepted by the IN endpoint; a
  longer one never is. The copying and comparing loops of the data phases have guards the
  source does not check: `InBounds` for the one that copies, and for the one that compares, which
  stops at the first difference, `CompareInBounds`. Outside them the source reads or writes beyond
  its buffers and the values say nothing about it, so results over runs ask for them (`Guarded`),
  and `BulkOnlyBounds` says which runs have them.
- **Control transfers.** What a request handler answers to a setup is a parameter (`Answer`):
  refused, or data, amount, direction and whether it wants to be notified.
- **Stepper.** The ticker interrupt and the calls are atomic steps in any order; the interrupt
  comes only while the ticker is attached, and the period it was attached with is kept. Pins, match registers and reset source of the timer
  are part of the state. `StepperWrites` takes a tick apart into its writes, one register or pin at
  a time. A pin that is on the timer while PWM is off for its channel is low, the external-match
  register being cleared once and for all.
- **Memory.** Pointers into a pool are positions in it; `page`, `pool`, `buf`, `mat` and the
  endpoint table are arrays updated in place.

Results worth knowing that the source and its comments do not tell:

- A WRITE to a protected disk leaves it alone and still passes, with residue 0.
- The answer to MODE SENSE never says that the disk is write-protected; that of INQUIRY announces one
  byte more than it has; that of READ FORMAT CAPACITIES is wrong for blocks of 2^24 bytes and more.
- The CSW behind a one-packet answer carries the residue and passes only if the endpoint reports
  completion at once; otherwise it has the full length as residue and the status of the command before.
- A WRITE or VERIFY whose first block lies behind the end of the disk is accepted. Unless the address
  wraps or the 16-bit difference to the end happens to be small, the copying loop of a WRITE leaves
  page and packet at the first packet, and the comparing loop of a VERIFY does if that packet is
  what the page happens to hold. One that starts on the disk never leaves them if no packet
  straddles a block.
- A READ whose first block lies behind the end is accepted and, unless its address wraps, never
  answered: nothing is queued, so a host that collects what is queued gets no CSW. Every other
  command that waits for no data gets one that way.
- An empty packet at the start of a block of a WRITE writes the page as it is to that block; the
  data that follows repairs it.
- Every mouse report of a split motion carries the wheel value: a scroll arrives once per report,
  so exactly once if and only if both coordinates fit 8 bits (or the scroll is 0), and -128 arrives
  with the wrong sign.
- The time of a command counts in microseconds modulo 2^32: from 4294968 ms on a command is too short,
  or refused.
- A command for N steps takes N+1 ticks and advances N+1 rows, although the parameter is
  documented as the number of steps.
- The first tick of a command switches high sides on before it sets the low sides, which the
  initialisation has just put on: a bridge conducts from supply to ground for a moment unless the
  command starts in row 0 (stage 0) or row 16 (stage 1). So after a first command of N steps the
  next one is clean exactly if N+1 is a multiple of 16. No other tick does that at any write.
- A brake or free call while a command passes row 0 ends it with steps left; in any other row it is
  ignored, even by an idle controller.
- A control request that is refused for its size or direction keeps its wish to be notified, and an
  IN token before the next setup fulfils it.
- The OUT packet of the status stage of an IN control transfer is refused, and stalls endpoint 0.
- Resetting the controller in rows 10 to 24 leaves the timer in the wrong stage for the next ten ticks.
- `findDescriptor` misses a list that consists of one descriptor of two bytes.
- `realiseEndpoint` grants buffers outside USB RAM, exactly if the end of each does not fit 32 bits;
  the next buffer can then be at address 0.
- `xifo_read_lr` with index 0xFFFFFFFF passes its guard and returns a slot of the pool instead of 0;
  `xifo_read_mr` the slot behind the newest element.

## Model

| member | source | states |
|---|---|---|
| BulkOnly.ParseEncoded | USBDevice/USBMSD/USBMSD.h:187-196 | Decoding the 31 bytes of a CBW gives back what the host encoded, field by field |
| BulkOnly.TransferFields | USBDevice/USBMSD/USBMSD.cpp:526-546 | Address and block count come back out of the big-endian fields of the 10- and 12-byte commands |
| BulkOnlyCommands.ReceivesIff | USBDevice/USBMSD/USBMSD.cpp:399-407 | The packets that are commands: 31 bytes that begin with 55 53 42 43 and give a command block of 1 to 16 bytes, to a device that waits for one |
| BulkOnlyCommands.CommandFields | USBDevice/USBMSD/USBMSD.cpp:399-480 | What such a packet says, by the position of its bytes: direction, tag, length, operation, first block, number of blocks |
| BulkOnly.StepKeepsValid | USBDevice/USBMSD/USBMSD.cpp:151-218 | No callback changes the size of the page, the size of the disk or its protection |
| BulkOnlyCommands.Opens | USBDevice/USBMSD/USBMSD.cpp:427-468 | A transfer command that starts on the disk sets up address, length and residue for its blocks; a READ goes straight on to its first packet |
| BulkOnlyCommands.TransferOpensIff | USBDevice/USBMSD/USBMSD.cpp:526-569 | A transfer command opens its data phase if and only if lengths and direction agree: nothing is reported, WRITE and VERIFY wait for data with address, length and residue set, READ goes on to its first packet; otherwise a stall of the pipe the host's flag names and a CSW with the full residue, failed or phase error, and nothing else; the disk is as it was |
| BulkOnlyCommands.AnsweredAtOnce | USBDevice/USBMSD/USBMSD.cpp:452-494 | Operations 0, 1E and 2F without data pass and unknown ones fail, with a CSW of the full residue in the same callback, behind a stall only for TEST UNIT READY with a length |
| BulkOnlyCommands.NotACommand | USBDevice/USBMSD/USBMSD.cpp:399-407 | A packet of wrong size or signature is ignored; a bad command-block length is answered by one failed CSW with the full residue |
| BulkOnlyCommands.UnexpectedPacket | USBDevice/USBMSD/USBMSD.cpp:174-180 | A packet that no stage expects stalls the OUT pipe and is answered by a phase error |
| BulkOnlyCommands.Collected | USBDevice/USBMSD/USBMSD.cpp:188-218 | A collected packet outside a data phase: the CSW follows the data; behind a stall if there was an error; behind the CSW the device waits for a command |
| BulkOnlyAnswers.AnswerIsSent | USBDevice/USBMSD/USBMSD.cpp:333-347 | A command that is answered by a packet sends the answer, cut to the length asked for, and then one CSW: with the rest as residue and passed where the endpoint reports completion at once, otherwise with the full length and the status of the command before |
| BulkOnlyAnswers.CapacityIsTheDisk | USBDevice/USBMSD/USBMSD.cpp:315-331 | READ CAPACITY: the last block plus one, times the block size, is the disk |
| BulkOnlyAnswers.CapacityIsSent | USBDevice/USBMSD/USBMSD.cpp:315-347 | A host that asks for 8 bytes or more gets exactly those 8 |
| BulkOnlyAnswers.FormatCapacityIsTheDiskIff | USBDevice/USBMSD/USBMSD.cpp:296-311 | READ FORMAT CAPACITIES: blocks times block size is the disk if and only if the block size fits its three bytes |
| BulkOnlyAnswers.SenseSaysIllegal | USBDevice/USBMSD/USBMSD.cpp:364-391 | REQUEST SENSE: fixed format, illegal request, as many bytes as it announces |
| BulkOnlyAnswers.InquiryNamesTheDisk | USBDevice/USBMSD/USBMSD.cpp:282-293 | INQUIRY: a removable disk, vendor, product and revision in their fields, and one byte more announced than there is |
| BulkOnlyAnswers.ModeSenseHidesProtection | USBDevice/USBMSD/USBMSD.cpp:350-356 | MODE SENSE: no pages, and never write-protected |
| BulkOnlyCommands.AdvanceMoves | USBDevice/USBMSD/USBMSD.cpp:240-242 | Inside the disk the bookkeeping never wraps: address is start plus bytes moved, residue and length are what is left |
| BulkOnlyWrite.WriteMany | USBDevice/USBMSD/USBMSD.cpp:221-248 | After any packets of a WRITE, empty ones included: whole blocks are on the disk and nothing else has changed, but for the block being filled if a packet was empty; the rest is in the page, residue plus bytes moved is the total; the CSW comes exactly when all has arrived |
| BulkOnlyWrite.WriteReplacesBlocks | USBDevice/USBMSD/USBMSD.cpp:221-248 | WRITE: the disk ends up with exactly the requested blocks replaced by the packets put together, CSW passed with residue 0, for every length and every way to cut the data that stays inside blocks, with empty packets or without |
| BulkOnlyWrite.WriteStopsAtEnd | USBDevice/USBMSD/USBMSD.cpp:223-247 | WRITE past the end: the existing blocks are replaced, the next packet ends the command as failed with what did not fit as residue |
| BulkOnlyVerify.VerifyMany | USBDevice/USBMSD/USBMSD.cpp:250-279 | After any packets of a VERIFY: the flag holds if and only if what has come so far is what the disk holds, residue plus bytes moved is the total; the CSW comes exactly when all has arrived |
| BulkOnlyVerify.VerifyComparesBlocks | USBDevice/USBMSD/USBMSD.cpp:250-279 | VERIFY with byte check passes if and only if the packets are the bytes of the blocks; the disk is unchanged |
| BulkOnlyVerify.VerifyStopsAtEnd | USBDevice/USBMSD/USBMSD.cpp:253-278 | VERIFY past the end: the next packet ends the command as failed with what was not compared as residue, whatever was compared before; the disk is unchanged |
| BulkOnlyRead.ReadGoesOn | USBDevice/USBMSD/USBMSD.cpp:497-523 | After n collections of a READ exactly the first n+1 packets of the blocks have been sent, and the residue is the rest |
| BulkOnlyRead.ReadDeliversBlocks | USBDevice/USBMSD/USBMSD.cpp:497-523 | READ: the packets sent are the requested blocks cut into full packets and then a CSW; past the end, the bytes up to the end, an empty packet, and failed with the rest as residue |
| BulkOnlyHost.CommandMeans | USBDevice/USBMSD/USBMSD.cpp:399-480 | The bytes a host sends for a block range are decoded to that range, in the direction of the command |
| BulkOnlyHost.CommandBytes | USBDevice/USBMSD/USBMSD.h:187-196 | The bytes the host sends for a READ, WRITE or VERIFY |
| BulkOnlyHost.ParseEncodedCsw | USBDevice/USBMSD/USBMSD.h:198-204 | The 13 bytes of every CSW reach the host with tag, residue and status as meant |
| BulkOnlyHost.HostWrites | USBDevice/USBMSD/USBMSD.cpp:221-248 | Sending WRITE10 for any range on the disk and its data in full packets replaces exactly that range |
| BulkOnlyHost.HostVerifies | USBDevice/USBMSD/USBMSD.cpp:250-279 | Sending VERIFY10 for a range passes if and only if the data is what the disk holds there |
| BulkOnlyHost.HostReads | USBDevice/USBMSD/USBMSD.cpp:497-523 | Sending READ10 for a range and collecting what comes gives exactly the bytes of that range |
| BulkOnlyHost.HostReadsWhatItWrote | USBDevice/USBMSD/USBMSD.cpp:151-218 | After a WRITE10, a READ10 of the same range sends the data that was written, and a VERIFY10 against it passes |
| BulkOnlySafety.AcceptedCommandsAreAnswered | USBDevice/USBMSD/USBMSD.cpp:151-218 | Over any callbacks within the guard, between two accepted commands there is a CSW with the first one's tag |
| BulkOnlySafety.AcceptedCommandsAreAnsweredOnce | USBDevice/USBMSD/USBMSD.cpp:151-218 | If the host also sends only when the device reads and collects only what was queued, there is exactly one CSW between successive commands |
| BulkOnlyBalance.RunKeepsBalance | USBDevice/USBMSD/USBMSD.cpp:221-279 | At every step of every data phase of every run within the guard, in 32-bit arithmetic: the address is the start plus the bytes that have crossed the pipes since the command, length and residue are the announced length less those bytes |
| BulkOnlyBounds.CopiesWhole | USBDevice/USBMSD/USBMSD.cpp:229-231 | The guard of the copying loop holds if and only if no byte of the copy would leave page or packet |
| BulkOnlyBounds.ComparesInsideIff | USBDevice/USBMSD/USBMSD.cpp:263-269 | The comparing loop, which goes on while the bytes agree, stays inside page and packet if and only if nothing is cut off or a difference comes first |
| BulkOnlyBounds.InBoundsIff | USBDevice/USBMSD/USBMSD.cpp:223-231 | The guard of the copying loop in terms of address, offset and size of a packet: on the disk it must not straddle its block, over the end it is always safe, behind the end only by chance |
| BulkOnlyBounds.AimedRunsAreGuarded | USBDevice/USBMSD/USBMSD.cpp:151-185 | In every run whose WRITE and VERIFY commands start on the disk and whose packets do not straddle blocks, every packet of data is within the guard |
| BulkOnlyBounds.TransferInBoundsIff | USBDevice/USBMSD/USBMSD.cpp:221-279 | For a WRITE that gets its data phase and any full packets, the loop stays in its buffers all the way if and only if the start address is on the disk, 64 short of wrapping, or within 64 of the end modulo 2^16; for a VERIFY if and only if that, or the first packet differs from what the page holds |
| BulkOnlyBounds.TransferBehindTheEnd | USBDevice/USBMSD/USBMSD.cpp:221-269 | The commands that break it: WRITE(10) or VERIFY(10) of block 2 of a disk of one 64-byte block is accepted, and uses 65472 bytes of its first packet; the WRITE leaves its buffers on every packet, the VERIFY exactly on the one the page holds |
| BulkOnlyProgress.CommandIsAnsweredIff | USBDevice/USBMSD/USBMSD.cpp:399-523 | Collecting what is queued leads to the CSW of an accepted command if and only if it is not waiting for data and is no READ from behind the end of the disk |
| BulkOnlyProgress.ReadBehindTheEnd | USBDevice/USBMSD/USBMSD.cpp:497-523 | Such a READ: READ(10) of block 2 of a disk of one block is accepted, sends and reports nothing, and is never answered |
| BulkOnlyProgress.OwedIsAnswered | USBDevice/USBMSD/USBMSD.cpp:188-218 | At every point of every run of a protocol-abiding host that does not read from behind the end, collecting what the device has to send leads to the CSW owed |
| BulkOnlySafety.OnlyWritesChangeDisk | USBDevice/USBMSD/USBMSD.cpp:233-238 | Only a data packet of a WRITE to an unprotected disk can change the disk |
| BulkOnlySafety.ProtectedDiskNeverChanges | USBDevice/USBMSD/USBMSD.cpp:235-237 | A protected disk is the same after every run |
| UsbMsd.MassStorage.FillPage | USBDevice/USBMSD/USBMSD.cpp:229-231 | The copying loop overlays the page with the packet and touches nothing else of it |
| UsbMsd.MassStorage.ComparePage | USBDevice/USBMSD/USBMSD.cpp:263-269 | The comparing loop, wherever it stays inside its buffers, clears the flag if and only if some byte differs |
| UsbMsd.MassStorage.MemoryWrite | USBDevice/USBMSD/USBMSD.cpp:221-248 | The in-place method does to device, page and disk what the specification of a WRITE packet says |
| UsbMsd.MassStorage.MemoryVerify | USBDevice/USBMSD/USBMSD.cpp:250-279 | The same for a VERIFY packet, also one that differs before the end of its buffers |
| UsbMsd.MassStorage.MemoryRead | USBDevice/USBMSD/USBMSD.cpp:497-523 | The same for a READ packet, and reads stay inside the page |
| UsbMsd.MassStorage.InfoTransfer | USBDevice/USBMSD/USBMSD.cpp:526-569 | Sets address and length, answers a wrong length, leaves the address on a packet boundary |
| UsbMsd.MassStorage.Reply | USBDevice/USBMSD/USBMSD.cpp:333-347 | One-packet replies, cut to the length asked for, with both outcomes of the endpoint |
| UsbMsd.MassStorage.TestUnitReady | USBDevice/USBMSD/USBMSD.cpp:482-494 | Passes, after stalling the pipe the host expects data on |
| UsbMsd.MassStorage.CbwDecode | USBDevice/USBMSD/USBMSD.cpp:399-480 | Decodes and dispatches a command as specified |
| UsbMsd.MassStorage.OutCallback | USBDevice/USBMSD/USBMSD.cpp:151-185 | A packet on the OUT endpoint in every stage, in the data phase any packet within the guard |
| UsbMsd.MassStorage.InCallback | USBDevice/USBMSD/USBMSD.cpp:188-218 | A collected IN packet in every stage |
| ControlTransfer.DecodeEncoded | USBDevice/USBDevice/USBDevice.cpp:168-178 | Decoding the eight bytes of a setup gives back its fields |
| ControlTransfer.SetupBytes | USBDevice/USBDevice/USBDevice.cpp:168-178 | Which byte is which, low bytes first, on a setup whose fields all differ |
| ControlTransfer.AcceptedIffAgreed | USBDevice/USBDevice/USBDevice.cpp:575-617 | A setup is accepted if and only if the handler's direction and amount are what the host asked for |
| ControlTransfer.InSendsNext | USBDevice/USBDevice/USBDevice.cpp:228-280 | One IN token moves exactly the first pending packet to the endpoint |
| ControlTransfer.InTransferSendsExpected | USBDevice/USBDevice/USBDevice.cpp:619-638 | After any number of IN tokens, exactly that many packets of the expected sequence have been sent |
| ControlTransfer.ExpectedIsAnswer | USBDevice/USBDevice/USBDevice.cpp:625-635 | The expected packets add up to the answer cut to wLength, all but the last are full, and a zero-length packet ends them if and only if the answer is short and a multiple of 64 |
| ControlTransfer.OutRefused | USBDevice/USBDevice/USBDevice.cpp:187-201 | A packet is refused, with a stall and nothing else changed, if and only if it is too big or in the wrong direction |
| ControlTransfer.InRefused | USBDevice/USBDevice/USBDevice.cpp:258-262 | An IN token is refused, with a stall and nothing else changed, if and only if data from the host is still to come |
| ControlTransfer.OutTransferAccounts | USBDevice/USBDevice/USBDevice.cpp:181-226 | Over any interrupts: accepted bytes plus remaining is wLength, the status packet is sent if and only if all has arrived, and the class is told exactly then |
| ControlTransfer.CompletesAtMostOnce | USBDevice/USBDevice/USBDevice.cpp:207-219 | Between two setups the class is told of the end at most once, and only when nothing remains |
| ControlEvents.NoDataTransfer | USBDevice/USBDevice/USBDevice.cpp:646-652 | An accepted setup without data sends the empty status packet and nothing else; when it is collected the class is told, if it asked, and the endpoint is armed |
| ControlEvents.SetAddressIsAnswered | USBDevice/USBDevice/USBDevice.cpp:646-652 | So does the setup 00 05 05 00 00 00 00 00, whose fields are those of SET_ADDRESS 5 |
| ControlEvents.InTransferEvents | USBDevice/USBDevice/USBDevice.cpp:228-280 | All events of an IN transfer, in order: the packets, the empty one if it is due, the notice, and the endpoint armed for the status stage; further tokens only arm it again |
| ControlEvents.OutTransferEvents | USBDevice/USBDevice/USBDevice.cpp:181-226 | All events of an OUT transfer, for every way to cut the data: the endpoint armed by the setup and by every packet that leaves bytes to come, then the notice and the empty status packet |
| ControlEvents.RefusedMovesNothing | USBDevice/USBDevice/USBDevice.cpp:533-580 | A setup that no handler takes ends the transfer before it: no token gets any of its data, and no data is taken |
| ControlRuns.ToldNoMoreThanAsked | USBDevice/USBDevice/USBDevice.cpp:533-698 | Over any setups and tokens, the class is told no more often than its handlers have asked |
| ControlRuns.ToldForAccepted | USBDevice/USBDevice/USBDevice.cpp:533-698 | Over any setups and tokens of a host that answers a stall by a setup, it is told no more often than setups were accepted whose handler asked |
| ControlRuns.ToldForRefused | USBDevice/USBDevice/USBDevice.cpp:575-617 | A setup and a token behind its stall for which the class is told although nothing was accepted |
| UsbDevice.ControlPipe.ControlOut | USBDevice/USBDevice/USBDevice.cpp:181-226 | The method does to the transfer what the specification of an OUT packet says |
| UsbDevice.ControlPipe.ControlIn | USBDevice/USBDevice/USBDevice.cpp:228-280 | The same for an IN token |
| UsbDevice.ControlPipe.ControlSetup | USBDevice/USBDevice/USBDevice.cpp:533-653 | The same for a setup packet |
| UsbDevice.ControlPipe.SetupCallback | USBDevice/USBDevice/USBDevice.cpp:665-675 | A setup that is not accepted stalls the pipe |
| UsbDevice.ControlPipe.OutCallback | USBDevice/USBDevice/USBDevice.cpp:677-685 | A refused OUT packet stalls the pipe |
| UsbDevice.ControlPipe.InCallback | USBDevice/USBDevice/USBDevice.cpp:687-698 | A refused IN token stalls the pipe |
| Descriptors.FindDescriptor | USBDevice/USBDevice/USBDevice.cpp:736-780 | The walk terminates and returns the first position of the type, for all bytes the source can search without leaving memory or standing still |
| Descriptors.EncodedIsChain | USBDevice/USBDevice/USBDevice.cpp:764-776 | The chain of an encoded list is walked descriptor by descriptor: the position found is the start of the first one of the type |
| Descriptors.FindsFirstUnlessBare | USBDevice/USBDevice/USBDevice.cpp:757-779 | The result is right for every list of descriptors except, exactly, when wTotalLength is 11 and the byte at offset 10 is the type looked for |
| StepTables.HighRows | smc.h:54-72 | The rows in which each high-side FET is on |
| StepTables.LowRows | smc.h:74-258 | In both variants every duty is at most 512 and non-zero exactly in the rows of its channel |
| StepTables.RowsDoNotOverlap | smc.h:54-258 | No row switches on a high-side FET and gives the low side below it a duty |
| StepTables.DutyRises | smc.h:74-258 | The first duty grows with every row, from 0 in row 0 to 512 in row 8 |
| StepTables.ChannelsAreShifted | smc.h:54-258 | All duties and high sides are those of the first channel, half a cycle on inside a pair and a quarter between the pairs |
| StepTables.TablesMirror | smc.h:54-258 | Exchanging the channels of the first pair gives the tables read backwards |
| StepTables.CurrentPath | smc.h:54-258 | A high side is on exactly where the low side at the other end of its winding has a duty |
| PwmTimer.OpKeepsCoherent | CT32B0_PWM.cpp:129-174 | Set, stage and reload keep registers, reset source and pins in agreement with the settings |
| PwmTimer.RegistersFollowSettings | CT32B0_PWM.cpp:40-174 | After initialising and any calls: the timer restarts on the period, in the register of channel 2 or 3 by the stage, whose pin is low; every other channel is on the timer with the value it was last set to |
| Stepper.StepKeepsSafe | SMC.cpp:73-270 | Every tick and call keeps the safety invariant, with the ticker attached exactly if steps remain and no pause is on |
| Stepper.NoShootThroughEver | SMC.cpp:83-125 | In every state of every run, both directions and both tables: below a high-side FET that is on, the low-side channel is set to PWM_PERIOD+1 and cannot conduct |
| Stepper.CommandTakesItsSteps | SMC.cpp:152-176 | After k ticks of an accepted command, under any pauses, N-k steps remain and the walker is k rows on; over after exactly N+1 ticks |
| Stepper.PausesDoNotMatter | SMC.cpp:255-270 | However a command is paused and continued, it stands where as many ticks without a pause would have taken it: outputs, timer, row and steps left |
| StepperCommands.CommandTurns | SMC.cpp:83-151 | After k ticks of a command from row r, under any pauses, every high side and every match register is that of row r+k-1 of the tables, modulo 32, with dir set, and of that row's mirror image, on the same channels, without: dir 1 walks the cycle upwards, dir 0 downwards |
| StepperCommands.CommandEndsFreeOrLocked | SMC.cpp:152-176 | After its N+1 ticks, under any pauses, a command has all FETs off if it said so, and otherwise holds the outputs of its last row |
| StepperCommands.CommandKeepsTime | SMC.cpp:189-270 | In every state of its run, under any pauses, the step time is at least 100 us, N steps take the time asked for, modulo 2^32 us, short of less than N us, and the ticker is attached with it, at first and after every pause |
| StepperCommands.CommandAcceptedIff | SMC.cpp:189-214 | A command is accepted if and only if the controller is idle and each of its steps, one at least, gets 100 us; otherwise it is answered -1 and changes nothing |
| StepperCommands.PauseStops | SMC.cpp:255-284 | A paused command stays as it is however many interrupts and further pauses come, reports its steps negated, and goes on with them |
| StepperCommands.InitCloses | SMC.cpp:36-48 | Initialisation switches the high sides off and the low sides on for the whole period, but for the channel the stage has off |
| StepperCommands.DeinitOpens | SMC.cpp:53-68 | A reset opens every bridge and leaves the state of power-on if and only if the timer is in stage 0 |
| Stepper.BrakeShortsFreeOpens | SMC.cpp:229-250 | At row 0, running or idle, a brake call makes every low side conduct and a free call none, and both end the command; at any other row both do nothing |
| Stepper.BrakeActsIff | SMC.cpp:229-250 | After k ticks of a command of N steps from row r, under any pauses, brake and free act if and only if r+k is a multiple of 32, whether the command is over (k is N+1) or loses its last N-k steps |
| Stepper.StepKeepsPhase | SMC.cpp:121-155 | Ticks and all calls but a reset keep the stage of the timer in phase with the row |
| Stepper.DeinitKeepsPhaseIff | SMC.cpp:53-68 | A reset keeps the phase if and only if it does not come in rows 10 to 24 |
| Stepper.StageStabilises | SMC.cpp:121-155 | From row 0 with the timer in any stage, under any commands, pauses, brake and free calls: in phase if and only if at least ten ticks were taken or the stage was 0 |
| Stepper.EveryLaterTickDrivesAll | SMC.cpp:83-125 | Whatever happened up to the last reset and whatever is called after it, from the eleventh tick on every tick drives all four bridges at the duties of its row of the cycle, upwards or downwards, L3 only in stage 1 and L4 only in stage 0 |
| Stepper.MicrostepDrivesAll | SMC.cpp:83-125 | In phase, every microstep drives each channel that has a duty in its row of the cycle, counted downwards without dir, from the timer at exactly that duty, and no other conducts |
| StepperWrites.TickIsQuietIff | SMC.cpp:73-178 | The single writes of a tick come to the state specified, and no bridge conducts at any of them if and only if no high side goes on over a low side that still conducts |
| StepperWrites.TicksAreQuietIff | SMC.cpp:36-178 | In every run from power-on, both tables and directions: a tick is quiet at every write if and only if it is not the first after an initialisation or starts from row 0 in stage 0 or row 16 in stage 1 |
| StepperWrites.QuietRows | SMC.cpp:36-125 | Unless the controller was reset, those are the rows 0 and 16 |
| StepperWrites.SecondCommandIsQuietIff | SMC.cpp:189-214 | After a first command of N steps the first tick of the next one is quiet if and only if N+1 is a multiple of 16 |
| Smc.PwmDriver.InitPwm | CT32B0_PWM.cpp:40-91 | The driver's initialisation leaves the state specified |
| Smc.PwmDriver.SetStage | CT32B0_PWM.cpp:129-153 | The same for a change of stage |
| Smc.PwmDriver.ReloadMat | CT32B0_PWM.cpp:158-166 | The same for a reload of the match registers |
| Smc.PwmDriver.Set | CT32B0_PWM.cpp:171-174 | The same for setting a channel |
| Smc.PwmDriver.Deinit | CT32B0_PWM.cpp:111-123 | The same for giving the pins back to the port |
| Smc.StepperControl.Energise | SMC.cpp:83-125 | The outputs of a microstep, in both directions; no match value underflows |
| Smc.StepperControl.Routine | SMC.cpp:73-178 | The whole interrupt leaves the state specified |
| Smc.StepperControl.Init | SMC.cpp:36-48 | High sides off, timer initialised and started |
| Smc.StepperControl.Deinit | SMC.cpp:53-68 | Everything reset but the stage of the timer |
| Smc.StepperControl.Step | SMC.cpp:189-214 | A command is accepted or refused with -1 and no change, in unsigned arithmetic |
| Smc.StepperControl.Brake | SMC.cpp:229-237 | Brakes at row 0 only |
| Smc.StepperControl.Free | SMC.cpp:242-250 | Frees at row 0 only |
| Smc.StepperControl.Pause | SMC.cpp:255-260 | Detaches the ticker of a running command |
| Smc.StepperControl.Continue | SMC.cpp:265-270 | Attaches it again after a pause |
| Smc.StepperControl.GetState | SMC.cpp:275-284 | Remaining steps, negated while paused, 0 when idle |
| BoundedQueue.PushAllKeepsLast | xIFO_SizeType.c:212-241 | Of everything ever appended exactly the last elements that fit are left, in order |
| Xifo.WriteAppends | xIFO_SizeType.c:220-241 | Writing a slot and moving the positions appends to the window, dropping the oldest when full |
| Xifo.PopOldest | xIFO_SizeType.c:173-203 | The slot computed by pop_lr is the oldest element; the window loses its front |
| Xifo.PopNewest | xIFO_SizeType.c:134-157 | The slot at the read position is the newest element; the window loses its back |
| Xifo.Buffer.constructor | xIFO_SizeType.c:25-33 | A new buffer is empty over its pool |
| Xifo.Buffer.Clear | xIFO_SizeType.c:42-47 | Every slot is zero, the number of elements is unchanged |
| Xifo.Buffer.Write | xIFO_SizeType.c:220-241 | Appends, dropping the oldest when full, and returns the room left |
| Xifo.Buffer.ReadLr | xIFO_SizeType.c:66-83 | The element at an index from the front, or 0; for the one index that passes the guard by wrapping, the slot it reads |
| Xifo.Buffer.ReadMr | xIFO_SizeType.c:102-118 | The element at an index from the back, or 0; for the one index that passes the guard by wrapping, the slot after the newest element, or what is in memory behind the pool |
| Xifo.Buffer.PopMr | xIFO_SizeType.c:134-157 | Takes the back element, or 0 from an empty buffer |
| Xifo.Buffer.PopLr | xIFO_SizeType.c:173-203 | Takes the front element, or 0 from an empty buffer |
| Xifo.Buffer.GetUsed | xIFO_SizeType.c:261-263 | The number of elements |
| Xifo.Buffer.GetFree | xIFO_SizeType.c:272-274 | Used and free add up to the size |
| Xifo.Buffer.GetFull | xIFO_SizeType.c:283-285 | 1 if and only if the buffer is full |
| Xifo.Buffer.ReceiveAndDrain | main.cpp:199-207 | The main loop sees the last 64 bytes at most of a burst, in order of arrival, and leaves the buffer empty |
| CircBuffer.QueueAppends | USBDevice/USBSerial/CircBuffer.h:44-51 | Queueing appends to the window between the positions, dropping the oldest when full |
| CircBuffer.DequeueTakes | USBDevice/USBSerial/CircBuffer.h:57-64 | Moving the read position takes the front of the window |
| CircBuffer.Buffer.constructor | USBDevice/USBSerial/CircBuffer.h:25-30 | The size is the length plus one in 16 bits; unless that is 0 the buffer is usable and empty, with room for the length asked for if and only if that is in 0..65534 |
| CircBuffer.Buffer.IsFull | USBDevice/USBSerial/CircBuffer.h:36-38 | True if and only if there are as many elements as the length |
| CircBuffer.Buffer.IsEmpty | USBDevice/USBSerial/CircBuffer.h:40-42 | True if and only if there is no element |
| CircBuffer.Buffer.Queue | USBDevice/USBSerial/CircBuffer.h:44-51 | Appends, dropping exactly the oldest when full |
| CircBuffer.Buffer.Available | USBDevice/USBSerial/CircBuffer.h:53-55 | The number of elements, never above the length |
| CircBuffer.Buffer.Dequeue | USBDevice/USBSerial/CircBuffer.h:57-64 | Takes the front element, or leaves the caller's variable alone |
| QueueEquivalence.SameAnswers | USBDevice/USBSerial/CircBuffer.h:44-64 | Both ring buffers, of the same capacity and new, answer every list of puts and takes alike, as the bounded queue does |
| UsbRam.GrantedIffFits | USBDevice/USBDevice/USBHAL_LPC11U.cpp:511-550 | A request is granted if and only if the endpoint can have buffers and one, or without the single-buffer bit two of them fit behind the others; it gets them on the next 64-byte boundaries, and the next request starts right behind |
| UsbRam.RefusedTakesNothing | USBDevice/USBDevice/USBHAL_LPC11U.cpp:526-550 | A refused request changes neither where the next one starts nor any other endpoint; of its own, at most the first buffer has moved |
| UsbRam.BuffersAreSound | USBDevice/USBDevice/USBHAL_LPC11U.cpp:511-598 | After any requests and bus resets, the buffers in use are disjoint, inside USB RAM, off the fixed areas, 64-byte aligned, and addressed exactly by the hardware's fields |
| UsbRam.GrantInsideIffNoWrap | USBDevice/USBDevice/USBHAL_LPC11U.cpp:526-550 | For any 32-bit size, a granted buffer is inside USB RAM if and only if its end does not wrap |
| UsbRam.GrantedOutsideIff | USBDevice/USBDevice/USBHAL_LPC11U.cpp:511-550 | A request is granted outside USB RAM if and only if the endpoint can have buffers and the end of each wraps, in terms of the arguments alone |
| UsbRam.GrantedOutside | USBDevice/USBDevice/USBHAL_LPC11U.cpp:526-550 | Such a request: the first one after a bus reset, up to the end of the address space |
| UsbRam.ResetForgets | USBDevice/USBDevice/USBHAL_LPC11U.cpp:583-598 | Whatever was requested before, after a bus reset every list of requests is granted and refused as after the first one, with the same addresses |
| UsbRam.SameBufferAgain | USBDevice/USBDevice/USBHAL_LPC11U.cpp:526-598 | A request of 1023 bytes for endpoint 2, granted, a bus reset, and the same request again: both at 0x20004140 |
| UsbRam.Allocator.constructor | USBDevice/USBDevice/USBHAL_LPC11U.cpp:161-173 | The layout: command list, control buffers, and the rest |
| UsbRam.Allocator.DisableEndpoints | USBDevice/USBDevice/USBHAL_LPC11U.cpp:583-598 | A bus reset takes all buffers back |
| UsbRam.Allocator.RealiseEndpoint | USBDevice/USBDevice/USBHAL_LPC11U.cpp:511-573 | Hands out one or two buffers, or none, as specified |
| WordPacking.EndpointWriteCore | USBDevice/USBDevice/USBHAL_LPC17.cpp:286-325 | The writing loop emits the packed words of the packet |
| WordPacking.EndpointReadCore | USBDevice/USBDevice/USBHAL_LPC17.cpp:244-284 | The reading loop returns the first bytes of the words, and takes exactly the words it needs |
| WordPacking.UnpackPacked | USBDevice/USBDevice/USBHAL_LPC17.cpp:244-325 | Packing takes one word for every four bytes, at least one, and unpacking gives the bytes back |
| WordPacking.LittleEndian | USBDevice/USBDevice/USBHAL_LPC17.cpp:286-325 | The bytes 1 to 5 are the words 04030201 and 00000005 |
| WordPacking.WriteThenRead | USBDevice/USBDevice/USBHAL_LPC17.cpp:244-325 | A packet written and read again is the same packet |
| Mouse.MotionOfReport | USBDevice/USBHID/USBMouse.cpp:60-70 | The host reads from a relative report the motion, the wheel and the buttons put into it |
| Mouse.PositionOfReport | USBDevice/USBHID/USBMouse.cpp:42-54 | The host reads from an absolute report the 16-bit position, the wheel and the buttons put into it |
| Mouse.UsbMouse.MouseSend | USBDevice/USBHID/USBMouse.cpp:60-70 | One report, which moves by what it carries if it is accepted |
| Mouse.UsbMouse.UpdateRelative | USBDevice/USBHID/USBMouse.cpp:24-41 | Splitting ends; delivered motion plus what is left is the motion asked for, nothing is left if and only if every report was accepted, and then there are as many reports as the two coordinates need |
| Mouse.ScrollIsAskedIff | USBDevice/USBHID/USBMouse.cpp:24-41 | The wheel of a successful update adds up to the number of reports times what one scrolls; it is what was asked for if and only if that is 0, or both coordinates lie in -128..127 and it is not -128 |
| Mouse.ScrollsTwice | USBDevice/USBHID/USBMouse.cpp:24-41 | An input for which it is not: a motion of 128 with one click scrolls two |
| Mouse.UsbMouse.Update | USBDevice/USBHID/USBMouse.cpp:22-58 | Both modes: success if and only if every report was accepted, and then the whole motion, in as many reports as it needs, or the position was delivered |

## Left out

- UsbMsd.MassStorage.OutCallback: asks for the guard on packets of data; what the source does to memory outside its buffers when it does not hold is not modelled.
- UsbMsd.MassStorage.MemoryWrite: asks for the guard of the copying loop, for the same reason.
- UsbMsd.MassStorage.MemoryVerify: asks for the guard of the comparing loop, for the same reason.
- BulkOnlySafety.AcceptedCommandsAreAnswered: runs do not contain the class-specific reset, which goes back to waiting for a command without a CSW, nor steps outside the guard.
- BulkOnlyWrite.WriteReplacesBlocks: the last packet is not empty, since an empty one after all the data no longer belongs to the transfer.
- Stepper.Step: a command for 0 steps is excluded, since the source divides by the number of steps before it checks it.
- Stepper.NoShootThroughEver: ticks and calls are atomic; StepperWrites goes into the ticks, the order of writes inside the other calls is not captured.
- UsbRam.BuffersAreSound: asks for sizes whose end is a 32-bit address; GrantedOutsideIff says what happens otherwise.
- Descriptors.FindDescriptor: asks that the bytes looked at are there and that a bLength of 0 does not come before the type is found, where the source loops.
- ControlTransfer.OutTransferAccounts: a class that changes the transfer while it is being told of the end is not modelled.
- The standard and class requests behind a setup are a parameter: they choose among constant tables and single fields.
- OUT endpoints of the LPC11U read into the control buffer; their own buffers are allocated but not used, and that sharing is not modelled.
- CT16B1_PWM.cpp, ByteOperations.cpp, LED and auxiliary outputs and the demonstration movement of the controller are thin or finite.
- USB audio, keyboard, MIDI and CDC code is lookups or single branches; the KL25Z and LPC40 layers are not this board's.
- Busy-waits, interrupt masking, clocks, watchdog and the electrical state of pins beyond port, timer and level are not part of this model.
