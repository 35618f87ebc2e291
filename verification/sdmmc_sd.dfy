/**
 * The card driver's transactions in place (do_transaction, handle_event, process_events and
 * their helpers in src/sdmmc_sd.rs), over the host driver and the interrupt block, proved against
 * the machine of module Transaction.
 */
module SdmmcSd {
  import opened Common
  import opened HwCmd
  import opened Cmd
  import opened Transaction
  import opened History
  import opened Runs
  import opened Mailbox
  import opened Grouping
  import opened Inter
  import opened IrqHandler
  import opened EndToEnd
  import opened ClockDiv
  import Sdmmc

  /** mask_check_and_clear: was a bit of the mask set, and the word without the mask. */
  method MaskCheckAndClear(word: Word, mask: Word) returns (hit: bool, word': Word)
    ensures hit == Has(word, mask) && word' == word - mask
    ensures !hit ==> word' == word
  {
    hit := Has(word, mask);
    word' := word - mask;
    assert !hit ==> word' == word;
  }

  /** Some poll of the busy line finds it released: the only one without a timeout, else one of `ticks`. */
  ghost predicate BusyCleared(timeoutMs: nat, ticks: nat, busy: nat -> bool) {
    if timeoutMs == 0 then !busy(0) else exists i: nat :: i < ticks && !busy(i)
  }

  /** The result of a transaction that ended as `t`, with the wait for the busy line where asked for. */
  ghost function ResultOf(c: Command, t: Txn, ticks: nat, busy: nat -> bool): Outcome {
    if t.state == Idle && (SCF_WAIT_BUSY in c.flags ==> BusyCleared(c.timeoutMs, ticks, busy)) then Ok
    else Err(Timeout)
  }

  /**
   * How a transaction ends: an error before its event loop, the failed assertion of make_hw_cmd, a
   * panic later on, not within the events it was followed for, or regularly.
   */
  datatype Ending = Refused | Asserted | Panicked | Going | Finished

  class SdmmcCard {
    const host: Sdmmc.Host
    const irq: IrqBlock
    const freqKhz: Khz
    /** How many polls a millisecond has: the tick rate of the timer. */
    const ticksPerMs: nat
    // The command in progress: what the caller passes by reference, and the locals of do_transaction.
    var cmd: Command
    var err: Option<Error>
    var response: Response
    var state: State
    var unhandled: Event
    /** The internal DMA (BMOD.DE), and whether the unimplemented voltage-switch stage was entered. */
    var dmaOn: bool
    var halted: bool
    /** BYTCNT and BLKSIZ. */
    var byteCount: U32
    var blockSize: U32

    /** The transaction as a value, with `event` in place of the unhandled bits. */
    ghost function ViewAt(s: State, event: Event): Txn
      reads this`err, this`response, this`dmaOn, this`halted
    {
      Txn(s, event, err, response, dmaOn, halted)
    }

    ghost function View(): Txn
      reads this
    {
      ViewAt(state, unhandled)
    }

    constructor (host: Sdmmc.Host, irq: IrqBlock, freqKhz: Khz, ticksPerMs: nat, cmd: Command)
      ensures this.host == host && this.irq == irq && this.freqKhz == freqKhz && this.ticksPerMs == ticksPerMs
      ensures this.cmd == cmd
    {
      this.host, this.irq, this.freqKhz, this.ticksPerMs, this.cmd := host, irq, freqKhz, ticksPerMs, cmd;
      byteCount, blockSize := 0, 0;
      err, response, state, unhandled, dmaOn, halted := None, NO_RESPONSE, Idle, NO_EVENT, false, false;
    }

    method DmaStop()
      modifies this`dmaOn
      ensures !dmaOn
    {
      dmaOn := false;
    }

    /** `s` and `event` say at which point of the machine the call stands. */
    method ProcessCommandResponse(status: Word, regs: Response, ghost s: State, ghost event: Event)
      modifies this`err, this`response, this`dmaOn
      ensures ViewAt(s, event) == CommandResponse(cmd, regs, status, old(ViewAt(s, event)))
    {
      if SCF_RSP_PRESENT in cmd.flags {
        if SCF_RSP_136 in cmd.flags {
          response := regs;
        } else {
          response := Response(regs.r0, {}, {}, {});
        }
      }
      var e := CommandError(cmd, status);
      if e.Some? {
        err := e;
        if cmd.hasData {
          DmaStop();
        }
      }
    }

    method ProcessDataStatus(status: Word, ghost s: State, ghost event: Event)
      modifies this`err, this`dmaOn
      ensures ViewAt(s, event) == DataStatus(cmd, status, old(ViewAt(s, event)))
    {
      if Has(status, DATA_ERR_MASK) {
        err := DataError(cmd, status);
      }
      if err.Some? && cmd.hasData {
        DmaStop();
      }
    }

    method TurnSendingCmd(orig: Word, event: Event, regs: Response) returns (next: State, event': Event)
      modifies this`err, this`response, this`dmaOn
      ensures ViewAt(next, event') == Visit(cmd, regs, orig, old(ViewAt(SendingCmd, event)))
    {
      next := SendingCmd;
      var hit, word := MaskCheckAndClear(event.sdmmc, CMD_ERR_MASK);
      event' := Event(word, event.dma);
      if hit {
        ProcessCommandResponse(orig, regs, SendingCmd, event');
      }
      hit, word := MaskCheckAndClear(word, {INT_CMD_DONE});
      assert hit <==> INT_CMD_DONE in event'.sdmmc;
      event' := Event(word, event.dma);
      if hit {
        ProcessCommandResponse(orig, regs, SendingCmd, event');
        next := if err.Some? then Idle else if !cmd.hasData then Idle else SendingData;
      }
    }

    method TurnSendingData(orig: Word, event: Event, regs: Response) returns (next: State, event': Event)
      modifies this`err, this`response, this`dmaOn
      ensures ViewAt(next, event') == Visit(cmd, regs, orig, old(ViewAt(SendingData, event)))
    {
      next := SendingData;
      var hit, word := MaskCheckAndClear(event.sdmmc, DATA_ERR_MASK);
      event' := Event(word, event.dma);
      if hit {
        ProcessDataStatus(orig, SendingData, event');
        DmaStop();
      }
      var dmaHit, dmaWord := MaskCheckAndClear(event.dma, DMA_DONE_MASK);
      event' := Event(word, dmaWord);
      if dmaHit {
        next := Busy;
      }
      if Has(orig, {INT_SBE, INT_DATA_OVER}) {
        next := Idle;
      }
    }

    method TurnBusy(orig: Word, event: Event, regs: Response) returns (next: State, event': Event)
      modifies this`err, this`response, this`dmaOn
      ensures ViewAt(next, event') == Visit(cmd, regs, orig, old(ViewAt(Busy, event)))
    {
      next := Busy;
      var hit, word := MaskCheckAndClear(event.sdmmc, {INT_DATA_OVER});
      assert hit <==> INT_DATA_OVER in event.sdmmc;
      event' := Event(word, event.dma);
      if hit {
        ProcessDataStatus(orig, Busy, event');
        next := Idle;
      }
    }

    /** Stage 2 of the switch is unimplemented: reaching it halts the driver. */
    method TurnVoltageSwitch(orig: Word, event: Event, regs: Response, s: State)
      returns (next: State, event': Event)
      requires s == SendingVoltageSwitch || s == WaitingVoltageSwitch
      modifies this`err, this`response, this`dmaOn, this`halted
      ensures ViewAt(next, event') == Visit(cmd, regs, orig, old(ViewAt(s, event)))
    {
      next := s;
      var hit, word := MaskCheckAndClear(event.sdmmc, CMD_ERR_MASK);
      event' := Event(word, event.dma);
      if hit {
        ProcessCommandResponse(orig, regs, s, event');
        next := Idle;
      }
      hit, word := MaskCheckAndClear(word, {INT_VOLT_SW});
      assert hit <==> INT_VOLT_SW in event'.sdmmc;
      event' := Event(word, event.dma);
      if hit {
        if s == WaitingVoltageSwitch {
          next := Idle;
        } else {
          halted := true;
        }
      }
    }

    /** The body of the loop in process_events. */
    method Turn(s: State, orig: Word, event: Event, regs: Response) returns (next: State, event': Event)
      requires s != Unset
      modifies this`err, this`response, this`dmaOn, this`halted
      ensures ViewAt(next, event') == Visit(cmd, regs, orig, old(ViewAt(s, event)))
    {
      match s {
        case Idle => next, event' := s, event;
        case SendingCmd => next, event' := TurnSendingCmd(orig, event, regs);
        case SendingData => next, event' := TurnSendingData(orig, event, regs);
        case Busy => next, event' := TurnBusy(orig, event, regs);
        case SendingVoltageSwitch => next, event' := TurnVoltageSwitch(orig, event, regs, s);
        case WaitingVoltageSwitch => next, event' := TurnVoltageSwitch(orig, event, regs, s);
      }
    }

    /** process_events: turn until the state no longer changes. */
    method ProcessEvents(event: Event, regs: Response)
      requires state != Unset && !halted
      modifies this`err, this`response, this`dmaOn, this`halted, this`state, this`unhandled
      ensures View() == Settle(cmd, regs, event.sdmmc, old(ViewAt(state, event)))
    {
      var orig := event.sdmmc;
      var next, s, left := state, Unset, event;
      ghost var goal := Settle(cmd, regs, orig, ViewAt(state, event));
      while next != s && !halted
        invariant next != Unset
        invariant if next == s || halted then ViewAt(next, left) == goal
                  else Settle(cmd, regs, orig, ViewAt(next, left)) == goal
        decreases 2 * Rank(next) + if next != s && !halted then 1 else 0
      {
        s := next;
        ghost var before := ViewAt(s, left);
        next, left := Turn(s, orig, left, regs);
        assert ViewAt(next, left) == Visit(cmd, regs, orig, before);
      }
      state := next;
      unhandled := left;
    }

    /** The time limit of a command, in polls. */
    function Ticks(c: Command): nat { c.timeoutMs * ticksPerMs }

    /** The handler is between two runs, and has not panicked. */
    ghost predicate Calm()
      reads irq
    {
      irq.Valid() && irq.isr.Resting? && !irq.panicked
    }

    /** `irq` has gone on from a state in which it had received `got`, and has handed over `es` since. */
    ghost predicate Handed(got: seq<Event>, wasTrace: seq<Step>, es: seq<Event>)
      reads irq
    {
      && irq.Valid() && (irq.panicked || irq.isr.Resting?)
      && wasTrace <= irq.trace && irq.received == got + es
    }

    /**
     * handle_event: the next event, with what was left over from earlier ones, or a timeout that
     * stops the DMA. `arrival` is the event with what the response registers hold.
     */
    method HandleEvent() returns (r: Outcome, ghost arrival: Option<Arrival>)
      requires state != Unset && !halted && Calm()
      modifies this`err, this`response, this`dmaOn, this`halted, this`state, this`unhandled, irq
      ensures Handed(old(irq.received), old(irq.trace), if arrival.Some? then [arrival.value.event] else [])
      ensures irq.panicked ==> r == Ok && arrival.None? && View() == old(View())
      ensures arrival.Some? ==> r == Ok && View() == Deliver(cmd, old(View()), arrival.value)
      ensures arrival.None? && !irq.panicked ==>
        && r == Err(Timeout) && View() == old(View()).(dmaOn := false) && irq.queue == []
        && irq.polls >= old(irq.polls) + Ticks(cmd)
      ensures irq.polls >= old(irq.polls)
    {
      r, arrival := Ok, None;
      var event := irq.Receive(Ticks(cmd));
      if irq.panicked {
        return;
      }
      match event {
        case None =>
          DmaStop();
          r := Err(Timeout);
        case Some(e) =>
          var regs: Response := *;
          arrival := Some(Arrival(e, regs));
          ProcessEvents(Merge(e, unhandled), regs);
      }
    }

    /**
     * The event loop of do_transaction. `hist` are the events it handled. Events may keep coming
     * that do not end the transaction, so the loop is followed for `most` events only; `going`
     * says that it has not ended by then.
     */
    method EventLoop(most: nat) returns (r: Outcome, going: bool, ghost hist: seq<Arrival>)
      requires View() == Start(cmd, response, dmaOn) && Calm()
      modifies this`err, this`response, this`dmaOn, this`halted, this`state, this`unhandled, irq
      ensures Handed(old(irq.received), old(irq.trace), Events(hist))
      ensures Live(cmd, old(View()), hist)
      ensures r == Ok || (r == Err(Timeout) && irq.queue == [] && !irq.panicked && !going)
      ensures var t := Run(cmd, old(View()), hist);
        && (going || irq.panicked || r != Ok <==> Listening(t))
        && View() == (if r == Ok then t else t.(dmaOn := false))
      ensures going ==> |hist| == most && !irq.panicked
      ensures r != Ok ==> irq.polls >= old(irq.polls) + Ticks(cmd)
    {
      r, hist := Ok, [];
      ghost var t0 := View();
      var n := 0;
      Nothing(irq.received);
      while n < most && state != Idle && !halted && r == Ok && !irq.panicked
        invariant state != Unset && n <= most
        invariant Handed(old(irq.received), old(irq.trace), Events(hist))
        invariant Live(cmd, t0, hist) && |hist| <= n
        invariant r == Ok && !irq.panicked ==> |hist| == n
        invariant Stands(r, t0, hist)
        invariant irq.polls >= old(irq.polls) + if r == Ok then 0 else Ticks(cmd)
        decreases most - n
      {
        r, hist := Take(t0, hist, old(irq.received), old(irq.trace));
        n := n + 1;
      }
      going := state != Idle && !halted && r == Ok && !irq.panicked;
    }

    /** The loop after `hist`: it stands where the run does, or has timed out or panicked while that listens. */
    ghost predicate Stands(r: Outcome, t0: Txn, hist: seq<Arrival>)
      reads this, irq
    {
      var t := Run(cmd, t0, hist);
      && (r == Ok || (r == Err(Timeout) && irq.queue == [] && !irq.panicked))
      && View() == (if r == Ok then t else t.(dmaOn := false))
      && (r != Ok || irq.panicked ==> Listening(t))
    }

    /** One turn of the event loop. */
    method Take(ghost t0: Txn, ghost hist: seq<Arrival>, ghost got: seq<Event>, ghost wasTrace: seq<Step>)
      returns (r: Outcome, ghost hist': seq<Arrival>)
      requires t0 == Start(cmd, t0.response, t0.dmaOn) && View() == Run(cmd, t0, hist) && Listening(View())
      requires state != Unset && Calm() && Live(cmd, t0, hist) && Handed(got, wasTrace, Events(hist))
      modifies this`err, this`response, this`dmaOn, this`halted, this`state, this`unhandled, irq
      ensures state != Unset && Handed(got, wasTrace, Events(hist')) && Live(cmd, t0, hist')
      ensures r == Ok && !irq.panicked ==> |hist'| == |hist| + 1 && View() == Run(cmd, t0, hist')
      ensures r != Ok || irq.panicked ==> hist' == hist
      ensures r == Ok && irq.panicked ==> View() == old(View())
      ensures r != Ok ==>
        r == Err(Timeout) && irq.queue == [] && !irq.panicked && View() == old(View()).(dmaOn := false)
      ensures irq.polls >= old(irq.polls) + if r == Ok then 0 else Ticks(cmd)
    {
      ghost var arrival, c, t := None, cmd, View();
      r, arrival := HandleEvent();
      hist' := hist;
      if arrival.Some? {
        hist' := hist + [arrival.value];
        Extends(c, t0, hist, t, arrival.value, View());
        Longer(got, Events(hist), arrival.value.event);
      }
    }

    /** wait_for_busy_cleared: poll the busy line up to `ticks` times, or once without a timeout. */
    method WaitForBusyCleared(timeoutMs: nat, ticks: nat, busy: nat -> bool) returns (cleared: bool)
      ensures cleared <==> BusyCleared(timeoutMs, ticks, busy)
    {
      if timeoutMs == 0 {
        return !busy(0);
      }
      for i := 0 to ticks
        invariant forall j: nat :: j < i ==> busy(j)
      {
        if !busy(i) {
          return true;
        }
      }
      return false;
    }

    /** The object holds the outcome `t` of a transaction of `c`; a wait that timed out stopped the DMA. */
    ghost predicate Reflects(c: Command, t: Txn)
      reads this
    {
      && cmd == c && err == t.err && response == t.response && state == t.state && halted == t.halted
      && dmaOn == (t.dmaOn && !Listening(t))
    }

    /**
     * At the end of a transaction a data command has its DMA running exactly if there was no
     * error, and an end without error means that command and data were reported done.
     */
    ghost predicate FairlyEnded(hist: seq<Arrival>)
      reads this
    {
      && (cmd.hasData && state == Idle ==> (dmaOn <==> err.None?))
      && (state == Idle && !halted && cmd.opcode != SD_SWITCH_VOLTAGE && err.None? ==>
           var all := OrAll(Events(hist)).sdmmc;
           INT_CMD_DONE in all && (cmd.hasData ==> INT_DATA_OVER in all))
    }

    /** The host is set to the card's frequency. */
    ghost predicate Clocked()
      reads host
    {
      host.TunedTo(Slot1, freqKhz, GetClkDivs(freqKhz))
    }

    /** The command passed its checks and was sent at the card's clock. */
    ghost predicate SentWell(c: Command)
      reads host
    {
      && WholeBlocks(c) && SizeAccepted(c) && Clocked()
      && host.SentAs(Slot1, MakeHwCmd(c).value, c.arg, GetClkDivs(freqKhz).1)
    }

    /** The command was sent, and the DMA has its sizes. */
    ghost predicate Dispatched(c: Command)
      reads this`byteCount, this`blockSize, host
    {
      SentWell(c) && (c.hasData ==> byteCount == c.datalen && blockSize == c.blklen)
    }

    /** Why a transaction did not get through to its event loop, `since` being when it began. */
    ghost predicate Excused(r: Outcome, c: Command, since: nat)
      reads host
    {
      || (r == Err(Timeout) && host.now - since > Sdmmc.START_TIMEOUT)
      || (r == Err(InvalidSize) && !SizeAccepted(c))
      || (r == Err(NotFound)
          && (Slot1 in host.noCard || (c.hasData && SCF_CMD_READ in c.flags && Slot1 in host.protected)))
    }

    /** A transaction of `c` when its event loop begins. */
    ghost function Opening(c: Command): Txn
      reads this`response, this`dmaOn
    {
      Start(c, response, dmaOn || c.hasData)
    }

    /** The transaction of `c` whose value is `t` has ended in this way, with result `r`. */
    ghost predicate EndsAs(r: Outcome, end: Ending, c: Command, t: Txn, busy: nat -> bool)
      reads this
    {
      match end
      case Going => cmd == c && View() == t && Listening(t)
      case Finished => Reflects(c, t) && !t.halted && r == ResultOf(c, t, Ticks(c), busy)
      case _ => true
    }

    /**
     * The transaction was a stretch between two quiet points of the interrupt block, from `s` on:
     * its verdict and its end can then be told from what the controller raised meanwhile.
     */
    ghost predicate Told(s: Irq, hist: seq<Arrival>)
      reads this, irq
      requires |s.raised| <= |irq.raised|
    {
      var raised := RaisedSince(s, irq.View());
      && (state == Idle && !LateCommandError(cmd, raised) ==> (err.Some? <==> Failed(cmd, raised)))
      && (state == Idle && LateCommandError(cmd, raised) ==>
           (err.Some? <==> Qualifies(cmd, Window(Events(hist)).sdmmc)))
      && (Complete(cmd, raised) ==> state == Idle)
      && (Clean(cmd, raised) ==> err.None? && (state == Idle <==> Complete(cmd, raised)))
    }

    /** A transaction of `c` that began as `t0` and handled `hist` has ended in this way. */
    ghost predicate Ended(r: Outcome, end: Ending, c: Command, t0: Txn, hist: seq<Arrival>, busy: nat -> bool)
      reads this
    {
      && (end in {Going, Finished} ==> Live(c, t0, hist))
      && EndsAs(r, end, c, Run(c, t0, hist), busy)
    }

    /** do_transaction, proved against the run over the events it took. */
    method Transact(c: Command, most: nat, busy: nat -> bool)
      returns (r: Outcome, end: Ending, ghost hist: seq<Arrival>)
      requires host.Valid() && Calm()
      modifies this, host, irq
      ensures host.Valid() && host.box.clobbered == old(host.box.clobbered)
      ensures (end == Finished && r == Ok) || end in {Asserted, Panicked, Going} ==> host.SlotInitialized(Slot1)
      ensures end == Refused ==> Excused(r, c, old(host.now)) && hist == []
      ensures end == Asserted ==> Clocked() && !WholeBlocks(c)
      ensures end == Panicked ==> Run(c, old(Opening(c)), hist).halted || irq.panicked
      ensures end == Panicked && Run(c, old(Opening(c)), hist).halted ==> Stage2Begun(old(host.now))
      ensures end in {Going, Finished} ==> Dispatched(c)
      ensures r == Err(InvalidSize) ==> end == Refused
      ensures Handed(old(irq.received), old(irq.trace), Events(hist))
      ensures Ended(r, end, c, old(Opening(c)), hist, busy)
      ensures end == Finished && state != Idle ==> irq.polls >= old(irq.polls) + Ticks(c)
      ensures end == Going ==> |hist| == most
    {
      hist := [];
      ghost var t0 := Opening(c);
      Nothing(irq.received);
      r, end := Prepare(c);
      if end == Going {
        assert Opening(c) == t0;
        r, end, hist := GoOn(c, most, busy);
      }
    }

    /** The end of a transaction is fair. */
    lemma Fair(c: Command, t0: Txn, hist: seq<Arrival>)
      requires Reflects(c, Run(c, t0, hist)) && !Run(c, t0, hist).halted
      requires t0 == Start(c, t0.response, t0.dmaOn) && (c.hasData ==> t0.dmaOn)
      ensures FairlyEnded(hist)
    {
      if c.hasData {
        DmaDiscipline(c, t0, hist);
      }
      if state == Idle && c.opcode != SD_SWITCH_VOLTAGE && err.None? {
        CompletionSafety(c, t0, hist);
      }
    }

    /**
     * do_transaction. `busy` is the busy line as polled after the event loop, which is followed
     * for `most` events; `hist` are the events it took. If it began and ended at quiet points of
     * the interrupt block, what was raised decides.
     */
    method DoTransaction(c: Command, most: nat, busy: nat -> bool)
      returns (r: Outcome, end: Ending, ghost hist: seq<Arrival>)
      requires host.Valid() && Calm()
      modifies this, host, irq
      ensures host.Valid() && host.box.clobbered == old(host.box.clobbered)
      ensures (end == Finished && r == Ok) || end in {Asserted, Panicked, Going} ==> host.SlotInitialized(Slot1)
      ensures end == Refused ==> Excused(r, c, old(host.now)) && hist == []
      ensures end == Asserted ==> Clocked() && !WholeBlocks(c)
      ensures end == Panicked ==> Run(c, old(Opening(c)), hist).halted || irq.panicked
      ensures end == Panicked && Run(c, old(Opening(c)), hist).halted ==> Stage2Begun(old(host.now))
      ensures end in {Going, Finished} ==> Dispatched(c)
      ensures r == Err(InvalidSize) ==> end == Refused
      ensures Handed(old(irq.received), old(irq.trace), Events(hist))
      ensures Ended(r, end, c, old(Opening(c)), hist, busy)
      ensures end == Finished && state != Idle ==> irq.polls >= old(irq.polls) + Ticks(c)
      ensures end == Going ==> |hist| == most
      ensures end == Finished ==> FairlyEnded(hist)
      ensures end == Finished && old(AtRest(c)) && Quiescent(irq.View()) ==>
        |old(irq.View()).raised| <= |irq.raised| && Told(old(irq.View()), hist)
    {
      r, end, hist := Transact(c, most, busy);
      if end == Finished {
        Fair(c, old(Opening(c)), hist);
        if old(AtRest(c)) && Quiescent(irq.View()) {
          Tell(old(irq.trace), old(Opening(c)), hist);
        }
      }
    }

    /** Nothing is pending, all that the machine acts on is enabled, and `c` is not a voltage switch. */
    ghost predicate AtRest(c: Command)
      reads irq
    {
      Quiescent(irq.View()) && irq.mask0 == EVENT_DEFAULT && c.opcode != SD_SWITCH_VOLTAGE
    }

    /** Between quiet points, the lemmas about executions of the interrupt block apply. */
    lemma Tell(before: seq<Step>, t0: Txn, hist: seq<Arrival>)
      requires irq.Valid() && irq.mask0 == EVENT_DEFAULT && before <= irq.trace
      requires Quiescent(Reached(before)) && Quiescent(irq.View())
      requires irq.received == Reached(before).received + Events(hist)
      requires cmd.opcode != SD_SWITCH_VOLTAGE && t0 == Start(cmd, t0.response, t0.dmaOn)
      requires Live(cmd, t0, hist) && state == Run(cmd, t0, hist).state && err == Run(cmd, t0, hist).err
      ensures |Reached(before).raised| <= |irq.raised| && Told(Reached(before), hist)
    {
      var steps := irq.trace[|before|..];
      assert irq.trace == before + steps;
      ExecConcat(Init(EVENT_DEFAULT), before, steps);
      ExecGrows(Reached(before), steps);
      assert Between(before, steps, hist);
      if state == Idle {
        RaisedVerdict(before, steps, cmd, t0, hist);
      }
      RaisedEnds(before, steps, cmd, t0, hist);
      if Clean(cmd, RaisedBetween(before, steps)) {
        RaisedCompletion(before, steps, cmd, t0, hist);
      }
    }

    /** The wait for the busy line after the event loop. */
    method Release(c: Command, busy: nat -> bool) returns (r: Outcome, end: Ending)
      requires Calm()
      modifies irq
      ensures Handed(old(irq.received), old(irq.trace), []) && irq.polls >= old(irq.polls)
      ensures r == if BusyCleared(c.timeoutMs, Ticks(c), busy) then Ok else Err(Timeout)
      ensures end == if irq.panicked then Panicked else Finished
    {
      var cleared := WaitForBusyCleared(c.timeoutMs, Ticks(c), busy);
      irq.Elapse();
      r := if cleared then Ok else Err(Timeout);
      end := if irq.panicked then Panicked else Finished;
    }

    /** The clock update that stage 2 begins with was tried. */
    ghost predicate Stage2Begun(since: nat)
      reads host
    {
      host.UpdateTried(Ok, Slot1, since) || host.UpdateTried(Err(Timeout), Slot1, since)
    }

    /** Stage 2 of a voltage switch, as far as it is implemented. */
    method VoltageStage2()
      requires host.Valid() && !Started(host.box)
      modifies host
      ensures host.Valid() && host.box.clobbered == old(host.box.clobbered) && host.slots == old(host.slots)
      ensures Stage2Begun(old(host.now))
    {
      var r := host.EnableClkCmd11(Slot1, false);
    }

    /** The event loop, then the wait for the busy line where asked for. */
    method Listen(c: Command, most: nat, busy: nat -> bool)
      returns (r: Outcome, end: Ending, ghost hist: seq<Arrival>)
      requires Calm() && (c.hasData ==> dmaOn)
      modifies this`cmd, this`err, this`response, this`dmaOn, this`halted, this`state, this`unhandled, irq
      ensures end in {Panicked, Going, Finished} && (halted ==> end == Panicked)
      ensures Handed(old(irq.received), old(irq.trace), Events(hist))
      ensures Ended(r, end, c, old(Opening(c)), hist, busy)
      ensures end == Panicked ==> Run(c, old(Opening(c)), hist).halted || irq.panicked
      ensures end == Panicked ==> halted == Run(c, old(Opening(c)), hist).halted
      ensures r != Err(InvalidSize)
      ensures end == Finished && state != Idle ==> irq.polls >= old(irq.polls) + Ticks(c)
      ensures end == Going ==> |hist| == most
    {
      r, end, hist := Converse(c, most);
      if end == Finished && r == Ok && SCF_WAIT_BUSY in c.flags {
        r, end := Release(c, busy);
      }
    }

    /** Nothing more has been sent. */
    twostate lemma StillDispatched(c: Command)
      requires old(Dispatched(c)) && unchanged(host) && unchanged(this`byteCount, this`blockSize)
      ensures Dispatched(c)
    {}

    /** do_transaction after start_cmd: nothing more is sent. */
    method Conclude(c: Command, most: nat, busy: nat -> bool)
      returns (r: Outcome, end: Ending, ghost hist: seq<Arrival>)
      requires Dispatched(c) && Calm() && (c.hasData ==> dmaOn)
      modifies this`cmd, this`err, this`response, this`dmaOn, this`halted, this`state, this`unhandled, irq
      ensures Dispatched(c)
      ensures end in {Panicked, Going, Finished}
      ensures Handed(old(irq.received), old(irq.trace), Events(hist))
      ensures Ended(r, end, c, old(Opening(c)), hist, busy)
      ensures end == Panicked ==> Run(c, old(Opening(c)), hist).halted || irq.panicked
      ensures end == Panicked ==> halted == Run(c, old(Opening(c)), hist).halted
      ensures r != Err(InvalidSize)
      ensures end == Finished && state != Idle ==> irq.polls >= old(irq.polls) + Ticks(c)
      ensures end == Going ==> |hist| == most
    {
      label sent:
      r, end, hist := Listen(c, most, busy);
      StillDispatched@sent(c);
    }

    /** do_transaction after start_cmd, with the second stage of a voltage switch where it is entered. */
    method GoOn(c: Command, most: nat, busy: nat -> bool)
      returns (r: Outcome, end: Ending, ghost hist: seq<Arrival>)
      requires host.Valid() && Dispatched(c) && Calm() && (c.hasData ==> dmaOn)
      modifies this`cmd, this`err, this`response, this`dmaOn, this`halted, this`state, this`unhandled, irq, host
      ensures host.Valid() && host.box.clobbered == old(host.box.clobbered) && host.slots == old(host.slots)
      ensures end in {Panicked, Going, Finished} && (end != Panicked ==> Dispatched(c))
      ensures end == Panicked && Run(c, old(Opening(c)), hist).halted ==> Stage2Begun(old(host.now))
      ensures Handed(old(irq.received), old(irq.trace), Events(hist))
      ensures Ended(r, end, c, old(Opening(c)), hist, busy)
      ensures end == Panicked ==> Run(c, old(Opening(c)), hist).halted || irq.panicked
      ensures r != Err(InvalidSize)
      ensures end == Finished && state != Idle ==> irq.polls >= old(irq.polls) + Ticks(c)
      ensures end == Going ==> |hist| == most
    {
      r, end, hist := Conclude(c, most, busy);
      if end == Panicked && halted {
        VoltageStage2();
      }
    }

    /** set_card_clk at the card's frequency. */
    method SetFrequency() returns (r: Outcome)
      requires host.Valid()
      modifies host
      ensures host.Valid() && host.box.clobbered == old(host.box.clobbered) && host.now >= old(host.now)
      ensures r == Ok || (r == Err(Timeout) && host.now - old(host.now) > Sdmmc.START_TIMEOUT)
      ensures r == Ok ==> host.SlotInitialized(Slot1) && Clocked() && Slot1 in host.clock.lowPower
      ensures r == Ok ==> |host.latched| >= |old(host.latched)| + 3 && !Started(host.box)
    {
      r := host.SetCardClk(Slot1, freqKhz);
    }

    /** The clock for a transaction; a voltage switch also keeps it always on. */
    method SetUpClock(c: Command) returns (r: Outcome)
      requires host.Valid()
      modifies host
      ensures host.Valid() && host.box.clobbered == old(host.box.clobbered) && host.now >= old(host.now)
      ensures r == Ok || (r == Err(Timeout) && host.now - old(host.now) > Sdmmc.START_TIMEOUT)
      ensures r == Ok ==> host.SlotInitialized(Slot1) && Clocked() && Slot1 in host.clock.lowPower
      ensures r == Ok && c.opcode == SD_SWITCH_VOLTAGE ==>
        |host.latched| >= |old(host.latched)| + 4 || host.now - old(host.now) > Sdmmc.START_TIMEOUT
    {
      r := SetFrequency();
      if r == Ok && c.opcode == SD_SWITCH_VOLTAGE {
        host.KeepOn(Slot1, freqKhz, GetClkDivs(freqKhz));
      }
    }

    /** The size check, and dma_prepare for a data command. */
    method PrepareDma(c: Command) returns (r: Outcome)
      modifies this`dmaOn, this`byteCount, this`blockSize
      ensures r == if SizeAccepted(c) then Ok else Err(InvalidSize)
      ensures r == Ok ==> dmaOn == (old(dmaOn) || c.hasData)
      ensures r == Ok && c.hasData ==> byteCount == c.datalen && blockSize == c.blklen
    {
      r := Ok;
      if c.hasData {
        if c.datalen >= 4 && c.datalen % 4 != 0 {
          return Err(InvalidSize);
        }
        byteCount, blockSize, dmaOn := c.datalen, c.blklen, true;
      }
    }

    /** start_cmd with the translated command. */
    method SendCommand(c: Command) returns (r: Outcome)
      requires host.Valid() && WholeBlocks(c) && Clocked() && host.SlotInitialized(Slot1)
      modifies host
      ensures host.Valid() && host.box.clobbered == old(host.box.clobbered) && host.now >= old(host.now)
      ensures host.slots == old(host.slots) && Clocked()
      ensures r == Ok || (r != Err(InvalidSize) && Excused(r, c, old(host.now)))
      ensures r == Ok ==> host.SentAs(Slot1, MakeHwCmd(c).value, c.arg, GetClkDivs(freqKhz).1)
    {
      NotAnUpdate(c);
      r := host.StartTuned(Slot1, MakeHwCmd(c).value, c.arg, freqKhz, GetClkDivs(freqKhz));
    }

    /** do_transaction up to and including start_cmd. */
    method Prepare(c: Command) returns (r: Outcome, end: Ending)
      requires host.Valid()
      modifies this`dmaOn, this`byteCount, this`blockSize, host
      ensures host.Valid() && host.box.clobbered == old(host.box.clobbered) && host.now >= old(host.now)
      ensures end in {Refused, Asserted, Going} && (end == Refused <==> r != Ok)
      ensures end != Refused || r == Err(InvalidSize) ==> host.SlotInitialized(Slot1) && Clocked()
      ensures end == Asserted ==> !WholeBlocks(c)
      ensures end == Refused ==> Excused(r, c, old(host.now))
      ensures end == Going ==> Dispatched(c) && dmaOn == (old(dmaOn) || c.hasData)
    {
      end := Refused;
      r := SetUpClock(c);
      if r == Ok && MakeHwCmd(c).None? {
        end := Asserted;
      } else if r == Ok {
        r := PrepareDma(c);
        if r == Ok {
          r := SendCommand(c);
        }
        end := if r == Ok then Going else Refused;
      }
    }

    /** A translated command is never a clock update, so it always waits for the mailbox. */
    lemma NotAnUpdate(c: Command)
      requires WholeBlocks(c)
      ensures var w := MakeHwCmd(c).value;
        && !Get(w, UpdateClkReg) && (Get(w, DataExpected) <==> c.hasData)
        && (Get(w, Rw) <==> c.hasData && SCF_CMD_READ in c.flags)
    {
      MakeHwCmdGets(c, UpdateClkReg);
      MakeHwCmdGets(c, DataExpected);
      MakeHwCmdGets(c, Rw);
    }

    /** The event loop from fresh locals, with what is known at its end. */
    method Converse(c: Command, most: nat) returns (r: Outcome, end: Ending, ghost hist: seq<Arrival>)
      requires Calm() && (c.hasData ==> dmaOn)
      modifies this`cmd, this`err, this`response, this`dmaOn, this`halted, this`state, this`unhandled, irq
      ensures Handed(old(irq.received), old(irq.trace), Events(hist))
      ensures Live(c, old(Opening(c)), hist)
      ensures var t := Run(c, old(Opening(c)), hist);
        && halted == t.halted && (halted ==> end == Panicked)
        && (end == Panicked ==> t.halted || irq.panicked)
        && (end == Going ==> cmd == c && View() == t && Listening(t) && |hist| == most)
        && (end == Finished ==>
             Reflects(c, t) && !t.halted && Calm() && r == if Listening(t) then Err(Timeout) else Ok)
      ensures end in {Panicked, Going, Finished} && r != Err(InvalidSize)
      ensures end == Finished && state != Idle ==> irq.polls >= old(irq.polls) + Ticks(c)
    {
      cmd, err, unhandled, halted := c, None, NO_EVENT, false;
      state := if c.opcode == SD_SWITCH_VOLTAGE then SendingVoltageSwitch else SendingCmd;
      assert View() == Start(c, response, dmaOn);
      var going;
      r, going, hist := EventLoop(most);
      end := if halted || irq.panicked then Panicked else if going then Going else Finished;
    }
  }

  lemma Nothing(got: seq<Event>)
    ensures got + Events([]) == got
  {}

  lemma Longer(got: seq<Event>, es: seq<Event>, e: Event)
    ensures got + es + [e] == got + (es + [e])
  {}

  /** A listening run that stands at `t` takes one more event, and then stands at `t'`. */
  lemma {:induction false} Extends(c: Command, t0: Txn, hist: seq<Arrival>, t: Txn, a: Arrival, t': Txn)
    requires t0 == Start(c, t0.response, t0.dmaOn)
    requires t == Run(c, t0, hist) && Listening(t) && t' == Deliver(c, t, a)
    ensures t' == Run(c, t0, hist + [a]) && t'.state != Unset
    ensures Live(c, t0, hist + [a]) && Events(hist + [a]) == Events(hist) + [a.event]
  {
    assert (hist + [a])[..|hist|] == hist;
    RunProgress(c, t0, hist + [a], |hist| + 1);
  }
}
