# A verified model of the ESP32 SD/MMC host driver

The driver talks to an SD card through a host controller. Commands go out through a mailbox of two
registers; what becomes of them comes back as interrupt status words, which the interrupt handler
reads, acknowledges and puts into a queue of 32 events. A transaction consumes events, each OR-ed
with the bits earlier events left unhandled, and moves a small state machine until it is idle. The
card clock is changed by three clock updates through the same mailbox, any of which may time out.

The model has these parts:

- `common.dfy`, `division.dfy`: masks, opcodes, error codes; status words; facts about floors and ceilings.
- `transaction.dfy`: the event machine as functions on values. `history.dfy`, `runs.dfy`,
  `deferred.dfy`, `error_kind.dfy` and `grouping.dfy` prove what every run does, for any command
  and any history of events.
- `inter.dfy`: hardware, handler, queue and consumer as interleaved atomic steps. `irq_handler.dfy`
  is the handler as a method with hardware raising bits between its register accesses.
  `end_to_end.dfy` joins the handler's guarantees to the event machine's.
- `hw_cmd.dfy`, `cmd.dfy`, `sectors.dfy`: the 32-bit command word, its construction, read commands.
- `clock_div.dfy`: the clock dividers. `backoff.dfy`: the doubling waits. `mailbox.dfy`: the mailbox.
- `sdmmc.dfy`: the class of the host driver, with the controller acting between any two accesses.
- `sdmmc_sd.dfy`: the class of the card driver's transactions over the host driver and the interrupt
  block, proved against `transaction.dfy`.
- `op_cond.dfy`: the operating-condition loop (SD Physical Layer Simplified Specification, section 4.2.3.1).

How things are represented:

- A 32-bit status, mask, flag or command word is the set of the positions of its set bits: or is
  union, and is intersection, and-not is difference. Arguments and lengths are integers with their
  32-bit range. Products that may leave the range are checked in the sector arithmetic, those of
  the clock dividers are proved to stay within it, and narrowing to a byte is written out.
- Time is a counter in microseconds that never goes back and does not stand still for ever. The
  controller, its interrupts and its card-detect inputs are nondeterministic, but an enabled
  interrupt is answered within the poll it is pending at. The card's replies to
  the operating-condition loop, and the busy line, are parameters, any sequence of values.
  The response registers are sampled once per event.
- A failed assertion, a full event queue and the unimplemented second stage of a voltage switch are
  outcomes of the model (`None`, `panicked`, `halted`), not preconditions.

Where the code is not what one would expect, the model follows the code, and says exactly when a
promise holds:

- Regrouping events can change a verdict: a command error reported after CMD_DONE is ignored when
  it comes in a later event and fatal when it comes in the same one. `Grouping.RegroupedVerdict` is
  the exact condition for every regrouping, `EndToEnd.RaisedVerdict` for every interleaving with
  the interrupt handler; `Grouping.LateErrorExample` and `EndToEnd.RaceExample` are instances.
- Below 157 kHz the card divider is narrowed to a wrong byte and the clock is too fast
  (`ClockDiv.ClockBound` and `ClockDiv.MonotoneIff` are equivalences; `ClockDiv.ClockNotMonotone`
  is an instance).
- A clock update for a voltage switch does not wait for the mailbox and can lose the command that
  waits there (`Mailbox.ImpatientExample`). `Mailbox.IntactIff` says exactly when commands are lost.
- `cmd_send_op_cond` sends the SD application command when `is_mmc` is set and the MMC command when
  it is not, and `init_ocr` goes on after any failure of the loop but a timeout
  (`OpCond.Negotiation.InitOcr`).
- The host divider is reprogrammed when a slot becomes active, not when an active slot's turn comes
  again: `Sdmmc.Host.SetCardClk` says when it stays that of the active slot,
  `Sdmmc.Host.SecondSlotExample` is an instance where not.
- The enable bit that `enable_clk_cmd11` writes is taken from the number of the slot: none for slot
  0, that of slot 0 for slot 1 (`Sdmmc.Host.EnableClkCmd11`).
- Programming one slot's divider also writes the other dividers, with zero: `Sdmmc.OtherDivider`
  says when the other slot's divider survives, `Sdmmc.DividerLostExample` is an instance where not.

## Model

| member | source | states |
|---|---|---|
| `Transaction.Visit` | src/sdmmc_sd.rs:274-342 | one turn of the loop keeps the state or moves strictly down the rank, so every call terminates |
| `Transaction.CommandError` | src/sdmmc_sd.rs:361-370 | there is a command error iff the word has a response timeout, a CRC error where the CRC is checked, or a response error |
| `Transaction.CommandResponse` | src/sdmmc_sd.rs:347-376 | the error flag afterwards is the old one or a qualifying error; a data command's DMA stays on exactly while there is no error |
| `Transaction.DataStatus` | src/sdmmc_sd.rs:378-402 | the error flag afterwards is the old one or a data error in the word; same DMA relation; the response is untouched |
| `History.RunAgrees` | src/sdmmc_sd.rs:229-345 | at every point of every run the state and whether there is an error are those read off ORs of prefixes of the event history; the deferred bits are bounded |
| `Deferred.RunDeferred` | src/sdmmc_sd.rs:245-248 | at every point of every run the deferred bits of both words are exactly those the history determines |
| `History.Verdict` | src/sdmmc_sd.rs:281-314 | a finished run failed iff a qualifying command error came up to and including the CMD_DONE event, or (data command) a data error in any event |
| `Runs.CompletionSafety` | src/sdmmc_sd.rs:297-314 | ending without error means CMD_DONE, and for data DATA_OVER, were delivered, on every path |
| `Runs.CleanCompletion` | src/sdmmc_sd.rs:285-314 | without error bits a run never fails, and it ends iff CMD_DONE (and DATA_OVER for data) were delivered |
| `Runs.EndsIff` | src/sdmmc_sd.rs:200-204 | whatever errors it saw, a run has ended iff the history of some prefix of its events says so |
| `Runs.CompleteEnds` | src/sdmmc_sd.rs:285-342 | whatever errors it saw, a run has ended once CMD_DONE (and DATA_OVER for data) were delivered |
| `Runs.RunProgress` | src/sdmmc_sd.rs:200-204 | over a whole run the state changes at most three times, never back up the rank, and an error stays set |
| `Runs.VoltageRun` | src/sdmmc_sd.rs:315-340 | a voltage switch is decided by the first event with a command error or the switch interrupt: halted iff the interrupt is there, failed iff the error counts |
| `Runs.DmaDiscipline` | src/sdmmc_sd.rs:298-301 | at every point of a data command's run the DMA is on iff no error is set |
| `Runs.VisitClears` | src/sdmmc_sd.rs:274-342 | a turn clears exactly the masks of its state, listed state by state |
| `Runs.CallConserves` | src/sdmmc_sd.rs:245-248 | the bits the mask checks of one call find set, turn after turn, and the bits it leaves are its merged input, with none in both, for both words |
| `Runs.RunConserves` | src/sdmmc_sd.rs:342-344 | the OR of all delivered words is exactly what the mask checks of the whole run took together with what is unhandled |
| `Runs.ResponseOfDone` | src/sdmmc_sd.rs:347-360 | the response kept is the register contents that came with the event carrying CMD_DONE |
| `ErrorKind.RunError` | src/sdmmc_sd.rs:361-400 | at every point of every run the error is the one the history determines: the last event with a command error, then the data errors of each phase |
| `ErrorKind.RunCommandError` | src/sdmmc_sd.rs:361-370 | which of the three command errors a run reports, by the bits of the last event that carried one, if the command was still being sent before the run's last event |
| `ErrorKind.RunDataError` | src/sdmmc_sd.rs:378-392 | which data error a run reports, by the bits its last event settles: of all events, its own, or of the busy phase |
| `Grouping.GroupingIndependence` | src/sdmmc_sd.rs:271-345 | any regrouping of a finished run's events finishes too and fails iff the original did, unless the only error is a late command error |
| `Grouping.LateRegrouped` | src/sdmmc_sd.rs:281-296 | with a late command error, a regrouped run fails iff a command error now comes with CMD_DONE or before |
| `Grouping.RegroupedVerdict` | src/sdmmc_sd.rs:271-345 | for every regrouping, the exact condition under which the verdict is unchanged |
| `Grouping.MergedVerdict` | src/sdmmc_sd.rs:245-248 | the whole history as one event finishes, with the same verdict iff there is no late command error |
| `Grouping.LateErrorExample` | src/sdmmc_sd.rs:281-296 | a late command error that passes unnoticed apart and is fatal together |
| `Inter.StepKeeps` | src/lib.rs:102-150 | every atomic step of hardware, handler or consumer keeps: nothing lost, nothing invented, no bit of either word repeated, first in first out, at most 32 queued |
| `Inter.ExecKeeps` | src/lib.rs:102-150 | the same under every interleaving of any length, from any state that has these properties |
| `Inter.QuietDelivery` | src/lib.rs:112-133 | between any two quiet points of an execution the consumer receives exactly the enabled bits raised between them |
| `Inter.Drainable` | src/lib.rs:102-150 | from any state without a panic the software alone can reach a quiet state |
| `Inter.PanicIff` | src/lib.rs:131-133 | the handler panics exactly when it has something to enqueue and 32 events wait |
| `Inter.SdioMasks` | src/lib.rs:135-147 | the SDIO interrupts that fired are masked, no others, and the semaphore is released once if any did |
| `IrqHandler.IrqBlock.Handler` | src/lib.rs:102-150 | one run takes the six steps in order under any interference; without a panic it enqueues exactly one event with all that was pending at its entry, or nothing if nothing was; it panics only at a full queue, and always there if something was pending |
| `IrqHandler.IrqBlock.Elapse` | src/lib.rs:102-150 | in a poll what was enabled and pending at its start is enqueued, unless the handler panics at a full queue |
| `IrqHandler.IrqBlock.Receive` | src/sdmmc_sd.rs:221-227 | hands over the oldest event, which may arrive during the wait; a timeout comes only after all polls of the limit, with the queue empty and nothing pending at the start; until the event is taken the handler may run |
| `EndToEnd.WindowArrives` | src/lib.rs:112-133 | what was raised before CMD_DONE or with it is received before CMD_DONE or with it |
| `EndToEnd.RaisedVerdict` | src/sdmmc_sd.rs:229-261 | between any two quiet points of any execution, a transaction that finished failed iff what the controller raised, in its order, is a failure; only a late command error leaves it to the interleaving, and then iff it was received with CMD_DONE |
| `EndToEnd.RaisedCompletion` | src/sdmmc_sd.rs:229-261 | between any two quiet points, with no error raised that counts, the transaction has ended iff command and data were raised as done |
| `EndToEnd.RaisedEnds` | src/sdmmc_sd.rs:229-261 | between any two quiet points, whatever errors were raised, the transaction has ended if command and data were raised as done |
| `EndToEnd.RaceExample` | src/lib.rs:102-150 | the same three raises in the same order under two interleavings end with and without an error |
| `EndToEnd.DefaultShowsAll` | src/sdmmc/ll.rs:25-37 | the default interrupt mask hides no bit the event machine acts on |
| `HwCmd.WithSets` | src/hw_cmd.rs:234-440 | each one-bit setter changes its own field only, which reads back as set |
| `HwCmd.WithCmdIndexSets` | src/hw_cmd.rs:226-232 | the index setter changes the index only and reads back |
| `HwCmd.WithCardNumSets` | src/hw_cmd.rs:334-340 | the card-number setter changes the card number only and reads back |
| `HwCmd.DecodeEncode` | src/hw_cmd.rs:18-87 | every record of fields is the decoding of a word |
| `HwCmd.EncodeDecode` | src/hw_cmd.rs:18-87 | every word is determined by its fields |
| `HwCmd.IndexLayout` | src/hw_cmd.rs:19-20 | the index is the number in bits 5:0 |
| `HwCmd.CardLayout` | src/hw_cmd.rs:52-53 | the card number is the number in bits 20:16 |
| `HwCmd.FlagLayout` | src/hw_cmd.rs:22-87 | the position of every one-bit field |
| `Cmd.MakeHwCmdDecodes` | src/cmd.rs:46-73 | the translated word decodes to exactly the fields opcode, flags and data ask for |
| `Cmd.WrittenWord` | src/sdmmc.rs:231-254 | the word on the bus is that, addressed to the slot, with hold register and start bit, all else clear |
| `Cmd.TranslatedIff` | src/cmd.rs:46-50 | the assertion holds iff the data, if any, is a whole number of blocks |
| `Cmd.UpdateWord` | src/sdmmc.rs:108-120 | a clock update on the bus has index 0 and only the update, wait, hold and start fields, and the switch field for a voltage switch |
| `Sectors.ClampExact` | src/sdmmc_sd/common.rs:82-89 | the clamp is the exact number of blocks whose byte address fits 32 bits |
| `Sectors.ClampedInRange` | src/sdmmc_sd/common.rs:82-89 | the clamp computes for sector sizes of at least 2, and every block below it has a 32-bit byte address |
| `Sectors.ClampKeeps` | src/sdmmc_sd/common.rs:82-89 | the clamp leaves a block-addressed card alone, and of a byte-addressed one keeps every block with a 32-bit address |
| `Sectors.ReadSteps` | src/sdmmc_sd/cmd.rs:293-297 | block 0 has argument 0, and the next block's argument is 512 or 1 further on |
| `Sectors.ReadAddresses` | src/sdmmc_sd/cmd.rs:281-299 | below the clamp every block has an argument without wrap, the same only for the same block, in both modes |
| `Sectors.ReadRanges` | src/sdmmc_sd/cmd.rs:293-297 | on a byte-addressed card the byte ranges of reads that share no block are disjoint and within the capacity |
| `Sectors.ReadAccepted` | src/sdmmc_sd.rs:166-175 | a read passes the block assertion and the size check, asks for 512 bytes a block, and has the flags and time limit of the source |
| `Sectors.ReadWord` | src/sdmmc_sd/cmd.rs:281-299 | a read's word is CMD17 or CMD18 with exactly its fields: data, rw, checked response, wait, and an automatic stop iff two blocks or more |
| `ClockDiv.NarrowingExact` | src/sdmmc.rs:137-149 | the byte dividers are untruncated iff the request is at least 157 kHz; no product leaves 32 bits |
| `ClockDiv.HostDivRange` | src/sdmmc.rs:122-151 | the host divider is always in 2..16 |
| `ClockDiv.CalcFreqIsQuotient` | src/sdmmc.rs:153-157 | the nested divisions are one division by the total ratio |
| `ClockDiv.WideRatio` | src/sdmmc.rs:130-147 | special cases and general formula all have the same target ratio |
| `ClockDiv.SpecialCases` | src/sdmmc.rs:132-135 | the 20000 and 400 cases give the ratio of the general formula |
| `ClockDiv.KnownDividers` | src/sdmmc.rs:122-151 | the divider pairs of 40000, 20000, 400 and 157 kHz |
| `ClockDiv.ClockBound` | src/sdmmc.rs:122-157 | the clock stays within the request iff the request is at least 157 kHz |
| `ClockDiv.ClockLowerBound` | src/sdmmc.rs:122-157 | from 157 to 40000 kHz the clock reaches at least four fifths of the request |
| `ClockDiv.ClockMonotone` | src/sdmmc.rs:122-157 | from 157 kHz on, a faster request never gets a slower clock |
| `ClockDiv.MonotoneIff` | src/sdmmc.rs:122-157 | no faster request gets a slower clock than this one iff this one is at least 157 kHz |
| `ClockDiv.ClockNotMonotone` | src/sdmmc.rs:137-147 | an instance: 156 kHz gets 40000 kHz, 157 kHz gets 156 kHz |
| `ClockDiv.ClockOptimal` | src/sdmmc.rs:137-147 | the host divider is the least, and below 10 MHz the ratio the least multiple of 4, that keeps the request |
| `Backoff.BackoffBound` | src/sdmmc.rs:80-95 | k yields from threshold d within limit T mean d * 2^(k-1) < T, for any readings |
| `Backoff.DriverLimits` | src/sdmmc.rs:233-267 | hence at most 4 yields in start_cmd and 6 in reset |
| `Mailbox.MailboxOrder` | src/sdmmc/ll.rs:287-308 | under every interleaving that never writes over a waiting command, exactly the written commands are taken, in order, each with its argument |
| `Mailbox.IntactIff` | src/sdmmc.rs:238-254 | no command is lost iff each command word is written to a free mailbox and each command is taken while the argument register holds its argument |
| `Mailbox.ImpatientExample` | src/sdmmc.rs:238-254 | a voltage-switch clock update sent while a command waits loses that command |
| `Sdmmc.Host.AwaitTaken` | src/sdmmc.rs:239-267 | the polling loops end: with a free mailbox, or with a timeout after more than a second; they yield as the times read from the clock demand |
| `Sdmmc.Host.WriteCommand` | src/sdmmc.rs:252-254 | argument and word are written as one command; with a free mailbox nothing is lost |
| `Sdmmc.Host.StartCmd` | src/sdmmc.rs:207-269 | on success exactly this word and argument were written and, after the command that waited before, taken; refused, with nothing written, exactly without a card (but for clock updates) or for data with the rw bit to a protected slot; only initialised slots become active; nothing waiting is overwritten except by a voltage update |
| `Sdmmc.Host.SendStarted` | src/sdmmc.rs:236-268 | a voltage update is written whether or not the mailbox is free, any other command to a free mailbox only |
| `Sdmmc.Host.ClockUpdate` | src/sdmmc.rs:108-120 | on success the update word was written and taken, and exactly one more latch happened, of the current clock registers |
| `Sdmmc.Host.SetCardClk` | src/sdmmc.rs:165-200 | on success the new divider was latched with the clock off, then latched with it on; on failure the slot table is unchanged; the divider was written with the latched clock off in every case; after success the host divider is the active slot's iff the slot had a clock before, no slot was active, or the dividers are equal |
| `Sdmmc.Host.SecondSlotExample` | src/sdmmc.rs:214-221 | a first clock for a second slot leaves the active slot with the wrong host divider |
| `Sdmmc.Host.EnableClkCmd11` | src/sdmmc.rs:460-475 | changes the enable bit the slot's number stands for; its clock update is written; with a free mailbox it overwrites nothing |
| `Sdmmc.Host.SetClkAlwaysOn` | src/sdmmc.rs:383-386 | sets the low-power bit whether or not the update succeeds; the update was taken and latched, or timed out |
| `Sdmmc.Host.Session` | src/sdmmc.rs:165-269 | over any history of calls, failing or not: commands in order, dividers written only with the clock off, slot table sound |
| `Sdmmc.Host.Reset` | src/sdmmc.rs:77-96 | asks for the three resets; success iff all have cleared, else a timeout after more than five seconds; yields as the times read demand, at most six times |
| `Sdmmc.Host.Init` | src/sdmmc.rs:283-291 | programs host divider 2, which the divider assertion accepts; success iff the three resets have cleared |
| `Sdmmc.Host.ActivateSlot` | src/sdmmc.rs:213-221 | only an initialised slot becomes active, with its own host divider |
| `Sdmmc.SetCardDivider` | src/sdmmc/ll.rs:134-148 | the divider the slot is routed to holds the new value; the enable bits are untouched |
| `Sdmmc.OtherDivider` | src/sdmmc/ll.rs:142-147 | the other slot keeps its divider iff it shares the one written and had that value, or had zero |
| `SdmmcSd.SdmmcCard.ProcessCommandResponse` | src/sdmmc_sd.rs:347-376 | in place, the machine's response step |
| `SdmmcSd.SdmmcCard.ProcessDataStatus` | src/sdmmc_sd.rs:378-402 | in place, the machine's data step |
| `SdmmcSd.SdmmcCard.ProcessEvents` | src/sdmmc_sd.rs:263-345 | the loop computes the machine's settled state |
| `SdmmcSd.SdmmcCard.HandleEvent` | src/sdmmc_sd.rs:229-261 | the next event of the queue is merged with the leftovers and delivered; a timeout comes after the command's time limit and stops the DMA |
| `SdmmcSd.SdmmcCard.EventLoop` | src/sdmmc_sd.rs:188-204 | the loop is the run over the events it receives; unless the handler panics or it goes on, it times out iff that run still listens, after the command's time limit |
| `SdmmcSd.SdmmcCard.WaitForBusyCleared` | src/sdmmc_sd.rs:495-507 | true iff some poll finds the line released |
| `SdmmcSd.SdmmcCard.SetUpClock` | src/sdmmc_sd.rs:157-163 | on success the slot table, the dividers and what is latched are those of the card's frequency |
| `SdmmcSd.SdmmcCard.Prepare` | src/sdmmc_sd.rs:157-185 | a transaction that gets through passed its checks, the DMA has its sizes, and its word and argument were the last written and the last taken, at the card's clock; one that does not has waited too long, found no card, or has a bad size |
| `SdmmcSd.SdmmcCard.Converse` | src/sdmmc_sd.rs:187-204 | after the event loop the card holds the run's state, error and response; the DMA is off after a timeout |
| `SdmmcSd.SdmmcCard.Fair` | src/sdmmc_sd.rs:297-314 | at the end of a transaction a data command's DMA runs iff there is no error, and no error means command and data were reported done |
| `SdmmcSd.SdmmcCard.Tell` | src/sdmmc_sd.rs:229-261 | between quiet points of the interrupt block, the card's error and state are those that the controller's raises determine |
| `SdmmcSd.SdmmcCard.DoTransaction` | src/sdmmc_sd.rs:153-219 | over the interrupt block and its queue: the command is sent at the card's clock; the result is that of the run over the events received and the busy line; a timeout comes after the command's time limit; at the end the DMA runs iff there is no error; success leaves the slot initialised; no waiting command is overwritten, not even by the update of a voltage switch; from quiet point to quiet point what was raised decides |
| `OpCond.Exclusive` | src/sdmmc_sd/cmd.rs:97-129 | the loop cannot both succeed and give up, and each at one attempt only |
| `OpCond.SectorMode` | src/sdmmc_sd/cmd.rs:105-106 | CMD1 asks with bit 29 clear, bit 30 set and the other bits as given |
| `OpCond.Cmd1OnBus` | src/sdmmc_sd/cmd.rs:101-109 | CMD1 on the bus, bit by bit |
| `OpCond.Acmd41OnBus` | src/sdmmc_sd/cmd.rs:101-104 | ACMD41 on the bus, bit by bit |
| `OpCond.Cmd55OnBus` | src/sdmmc_sd/cmd.rs:28-34 | CMD55 on the bus, bit by bit |
| `OpCond.Acmd41Values` | src/sdmmc_sd/common.rs:9-26 | the four arguments init_ocr can ask with |
| `OpCond.Negotiation.Send` | src/sdmmc_sd/cmd.rs:101-109 | an attempt with a reply has put its command on the bus and had it taken, after its CMD55 where there is one; its reply is the card's unless the host waited in vain or found no card |
| `OpCond.Negotiation.CmdSendOpCond` | src/sdmmc_sd/cmd.rs:87-135 | success iff a ready reply comes within 300 attempts before the third error; the third error's value iff three come first; else a timeout after 300; every attempt with a reply has its commands, in order, among those taken; OCR changes on success only; the clock is updated before the first attempt; low power is off on every exit; the slot is left as it was or at the card's frequency |
| `OpCond.Negotiation.InitOcr` | src/sdmmc_sd/common.rs:8-50 | a timeout is retried as the other card kind, other failures are passed over, and the final OCR is the one read last, by CMD58 on the bus |

## Left out

- Voltage switch after its first stage: the second stage is unimplemented in the source; reaching it
  halts the model, after the clock update it begins with. The waiting state is kept in the machine, without its clock update.
- `IrqHandler.IrqBlock.Handler`: logging and the read of the reset register have no model.
- FIFO reset, data and response timeout registers, clock phase selection: plain writes that overwrite
  neighbouring fields, with no effect on what is proved.
- Reading dividers back, and keeping both slots' dividers: a divider write zeroes the others
  (`Sdmmc.OtherDivider`).
- `Sdmmc.Host.SetCardClk`: the value of the data-timeout register, 100 cycles per kHz, leaves 32
  bits from 42949673 kHz on; it is not computed here, so that overflow is not modelled.
- Pins, IOMUX, GPIO, interrupt binding and the main program: register plumbing.
- CID and CSD decoding: done by an external crate that is not part of this model. Sector size and capacity are inputs.
- DMA buffers and descriptors: the DMA is a running or stopped flag.
- `send_cmd`: it passes on the transaction's result and only logs the error field, so its success
  does not mean the card reported none.
- Leftovers across transactions: unhandled bits are dropped and queued events are not; the run
  theorems are about one transaction.
- `SdmmcSd.SdmmcCard.EventLoop`: events may keep coming that never end a transaction, so the loop is
  followed for a given number of events, any number; what it then says holds of the run so far.
- Async scheduling: yields are counted, and the controller may act at each; other tasks hold no reference to the driver.
- Unfinished functions of the source: writing, erasing, bus width and timing selection.
