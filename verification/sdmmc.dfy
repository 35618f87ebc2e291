/**
 * The host controller driver (src/sdmmc.rs and src/sdmmc/ll.rs): the command mailbox, the card
 * clock and the slot bookkeeping, with the controller acting between any two register accesses.
 */
module Sdmmc {
  import opened Common
  import opened HwCmd
  import opened Cmd
  import opened Mailbox
  import opened Backoff
  import opened ClockDiv

  // Microseconds.
  const FIRST_YIELD: nat := 100_000
  const START_TIMEOUT: nat := 1_000_000
  const RESET_TIMEOUT: nat := 5_000_000

  type U2 = i: int | 0 <= i < 4

  /** The clock registers: CLKENA (one bit per slot, twice), CLKSRC and CLKDIV. */
  datatype ClockRegs = ClockRegs(
    enable: set<Slot>,
    lowPower: set<Slot>,
    source0: U2,
    source1: U2,
    div0: U8,
    div1: U8,
    div2: U8,
    div3: U8)

  /** What the registers hold after the controller reset; no clock is enabled. */
  const CLOCK_RESET: ClockRegs := ClockRegs({}, {}, 0, 0, 0, 0, 0, 0)

  /** Which divider a slot's clock goes through. */
  function SourceOf(r: ClockRegs, slot: Slot): U2 { if slot.Slot0? then r.source0 else r.source1 }

  /** The divider a slot's clock goes through: the one its source field selects. */
  function DividerOf(r: ClockRegs, slot: Slot): U8 {
    var source := SourceOf(r, slot);
    if source == 0 then r.div0 else if source == 1 then r.div1 else if source == 2 then r.div2 else r.div3
  }

  function Switch(s: set<Slot>, slot: Slot, en: bool): set<Slot> { if en then s + {slot} else s - {slot} }

  /** The enable bits that `slot as u8` stands for: none for slot 0, and that of slot 0 for slot 1. */
  function CastBit(slot: Slot): set<Slot> { if slot.Slot0? then {} else {Slot0} }

  /** ll_set_card_clk_div: route the slot to its own divider and write that one; the others read zero. */
  function SetCardDivider(r: ClockRegs, slot: Slot, div: U8): (r': ClockRegs)
    ensures DividerOf(r', slot) == div && r'.enable == r.enable && r'.lowPower == r.lowPower
  {
    match slot
    case Slot0 => ClockRegs(r.enable, r.lowPower, 0, r.source1, div, 0, 0, 0)
    case Slot1 => ClockRegs(r.enable, r.lowPower, r.source0, 1, 0, div, 0, 0)
  }

  /**
   * Setting one slot's divider keeps the other's in two cases only: the other slot is routed to
   * the divider written and it held that value, or the other slot's divider was zero and is not
   * the one written.
   */
  lemma OtherDivider(r: ClockRegs, slot: Slot, other: Slot, div: U8)
    requires other != slot
    ensures DividerOf(SetCardDivider(r, slot, div), other) == DividerOf(r, other)
       <==> DividerOf(r, other) == if SourceOf(r, other) == slot.Num() then div else 0
  {}

  /** Giving both slots a divider leaves the first with none. */
  lemma DividerLostExample(r: ClockRegs, first: Slot, second: Slot, div: U8, div': U8)
    requires first != second
    ensures DividerOf(SetCardDivider(SetCardDivider(r, first, div), second, div'), first) == 0
  {}

  datatype SlotCtx = SlotCtx(freqKhz: nat, hostDiv: U8, isUhs1: bool)

  datatype SlotTable = SlotTable(ctx0: SlotCtx, ctx1: SlotCtx) {
    function At(slot: Slot): SlotCtx { if slot.Slot0? then ctx0 else ctx1 }

    function Put(slot: Slot, ctx: SlotCtx): SlotTable {
      if slot.Slot0? then SlotTable(ctx, ctx1) else SlotTable(ctx0, ctx)
    }
  }

  const NO_CTX: SlotCtx := SlotCtx(0, 0, false)

  /** A write of the card divider, with the clock registers the controller worked with at that time. */
  datatype DividerWrite = DividerWrite(slot: Slot, inEffect: ClockRegs)

  /** ll_set_clk_div accepts these dividers; a slot whose divider is zero is not initialised. */
  predicate Acceptable(div: nat) { 2 <= div <= 16 }

  /** Each slot has an acceptable host divider or none, and only an initialised slot is active. */
  predicate SlotsValid(t: SlotTable, active: Option<Slot>) {
    && (t.ctx0.hostDiv == 0 || Acceptable(t.ctx0.hostDiv))
    && (t.ctx1.hostDiv == 0 || Acceptable(t.ctx1.hostDiv))
    && (active.Some? ==> t.At(active.value).hostDiv != 0)
  }

  /** The card divider was only ever written while the slot's clock, as last latched, was off. */
  predicate DividersQuiet(writes: seq<DividerWrite>) {
    forall i :: 0 <= i < |writes| ==> writes[i].slot !in writes[i].inEffect.enable
  }

  /** What the controller may have done since the box was `b` and `l` was latched, the clock registers being `r`. */
  predicate Drift(b: Box, l: seq<ClockRegs>, r: ClockRegs, b': Box, l': seq<ClockRegs>) {
    || (b' == b && l' == l)
    || (Started(b) && b' == Take(b) && l' == l + if Get(b.cmd, UpdateClkReg) then [r] else [])
  }

  /** Since `l` only the clock registers `r` have been latched. */
  predicate Latches(l: seq<ClockRegs>, l': seq<ClockRegs>, r: ClockRegs) {
    l <= l' && forall i :: |l| <= i < |l'| ==> l'[i] == r
  }

  /** Since `at` and `l`, commands were taken under the last of `l` or what was latched after it. */
  predicate TakenSince(at: seq<nat>, l: seq<ClockRegs>, at': seq<nat>, l': seq<ClockRegs>) {
    at <= at' && l <= l' && forall k :: |at| <= k < |at'| ==> |l| - 1 <= at'[k] < |l'|
  }

  /** A clock update in the course of a voltage switch. */
  predicate IsVoltageUpdate(cmd: Word) { Get(cmd, VoltSwitch) && Get(cmd, UpdateClkReg) }

  /** How many clock updates wait in a mailbox. */
  function Updates(b: Box): nat { if Started(b) && Get(b.cmd, UpdateClkReg) then 1 else 0 }

  /** A clock update as it is on the bus. */
  function UpdateSent(slot: Slot, isCmd11: bool): (Word, U32) {
    (StartWord(ClockUpdateWord(slot, isCmd11), slot), 0)
  }

  /** A clock update on the bus has no opcode and no argument, and only these fields. */
  lemma UpdateSentExact(slot: Slot, isCmd11: bool)
    ensures var (word, arg) := UpdateSent(slot, isCmd11);
      && arg == 0
      && Decode(word) == Fields(0, slot.Num(),
           {UpdateClkReg, WaitComplete, UseHoldReg, StartCommand} + if isCmd11 then {VoltSwitch} else {})
  {
    UpdateWord(slot, isCmd11);
  }

  /** A call from above. */
  datatype Request =
    | SetClock(slot: Slot, freq: nat)
    | Send(slot: Slot, word: Word, arg: U32)
    | AlwaysOn(slot: Slot, en: bool)

  /** A frequency is at least 1 kHz, and a voltage-switch clock update is not sent by itself. */
  predicate Admissible(q: Request) {
    (q.SetClock? ==> q.freq >= 1) && (q.Send? ==> !IsVoltageUpdate(q.word))
  }

  /** The three reset bits of CTRL. */
  datatype ResetBit = Controller | Dma | Fifo

  /** A slot's clock is on, with this card divider. */
  predicate Ticking(r: ClockRegs, slot: Slot, card: U8) { slot in r.enable && DividerOf(r, slot) == card }

  class Host {
    var box: Box
    var clock: ClockRegs
    var slots: SlotTable
    var activeSlot: Option<Slot>
    /** The host divider last programmed into CLK_EDGE_SEL. */
    var hostDiv: nat
    /** Card-detect and write-protect inputs; a set card-detect bit means no card. */
    var noCard: set<Slot>
    var protected: set<Slot>
    /** Time in microseconds: it never goes back, and never stands still for more than `patience` readings. */
    var now: nat
    var patience: nat
    /** Every clock register file the controller has worked with, the current one last. */
    ghost var latched: seq<ClockRegs>
    ghost var dividerWrites: seq<DividerWrite>
    /** The reset bits of CTRL that are set, and those that were ever asked for. */
    var resetBits: set<ResetBit>
    ghost var resetsAsked: seq<ResetBit>
    /** Every time read from the clock. */
    ghost var clockReads: seq<nat>
    /** For every command taken, which of `latched` was in effect then. */
    ghost var takenAt: seq<nat>

    ghost predicate Valid()
      reads this
    {
      && SlotsValid(slots, activeSlot)
      && DividersQuiet(dividerWrites)
      && latched != []
      && |takenAt| == |box.taken|
      && (box.clobbered == 0 ==> Orderly(box))
    }

    constructor ()
      ensures Valid() && box == RESET && clock == CLOCK_RESET
      ensures activeSlot == None && slots == SlotTable(NO_CTX, NO_CTX)
      ensures latched == [CLOCK_RESET] && dividerWrites == []
    {
      box, clock, activeSlot, hostDiv := RESET, CLOCK_RESET, None, 0;
      slots := SlotTable(NO_CTX, NO_CTX);
      noCard, protected, now, patience := {}, {}, 0, 0;
      resetBits, resetsAsked, clockReads := {}, [], [];
      latched, dividerWrites, takenAt := [CLOCK_RESET], [], [];
    }

    /** The controller may take a waiting command; a clock update makes it latch the clock registers. */
    method Interfere()
      requires Valid()
      modifies this`box, this`latched, this`takenAt
      ensures Valid() && Drift(old(box), old(latched), clock, box, latched)
      ensures TakenSince(old(takenAt), old(latched), takenAt, latched)
    {
      if * {
        if Started(box) {
          if Get(box.cmd, UpdateClkReg) {
            latched := latched + [clock];
          }
          box := Take(box);
          takenAt := takenAt + [|latched| - 1];
        }
      }
    }

    /** cmd_taken, ll_is_command_taken: the start bit as the controller has left it. */
    method CmdTaken() returns (taken: bool)
      requires Valid()
      modifies this`box, this`latched, this`takenAt
      ensures Valid() && Drift(old(box), old(latched), clock, box, latched) && taken == !Started(box)
      ensures TakenSince(old(takenAt), old(latched), takenAt, latched)
    {
      Interfere();
      taken := !Started(box);
    }

    method ReadClock() returns (t: nat)
      modifies this`now, this`patience, this`clockReads
      ensures t == now >= old(now) && clockReads == old(clockReads) + [t]
      ensures now > old(now) || patience < old(patience)
    {
      var advance: nat, next: nat := *, *;
      if advance > 0 || patience == 0 {
        now := now + advance + 1;
        patience := next;
      } else {
        patience := patience - 1;
      }
      t := now;
      clockReads := clockReads + [t];
    }

    /**
     * One of the two polling loops of start_cmd: wait until no command is waiting. `wait` carries
     * the yield threshold over from one loop to the next.
     */
    method AwaitTaken(t0: nat, wait: Wait) returns (r: Outcome, wait': Wait, ghost times: seq<nat>)
      requires Valid() && t0 <= now
      requires Sound(FIRST_YIELD, START_TIMEOUT, wait)
      modifies this`box, this`latched, this`takenAt, this`now, this`patience, this`clockReads
      ensures Valid() && now >= old(now)
      ensures Drift(old(box), old(latched), clock, box, latched)
      ensures r == Ok || r == Err(Timeout)
      ensures r == Ok ==> !Started(box)
      ensures r != Ok ==> now - t0 > START_TIMEOUT
      ensures Sound(FIRST_YIELD, START_TIMEOUT, wait')
      ensures clockReads == old(clockReads) + times + if r == Ok then [] else [now]
      ensures wait' == Waited(wait, t0, times)
      ensures TakenSince(old(takenAt), old(latched), takenAt, latched)
    {
      wait', times := wait, [];
      var taken := CmdTaken();
      while !taken
        invariant clockReads == old(clockReads) + times && wait' == Waited(wait, t0, times)
        invariant Valid() && now >= old(now)
        invariant Drift(old(box), old(latched), clock, box, latched)
        invariant TakenSince(old(takenAt), old(latched), takenAt, latched)
        invariant taken == !Started(box)
        invariant Sound(FIRST_YIELD, START_TIMEOUT, wait')
        decreases if now <= t0 + START_TIMEOUT then t0 + START_TIMEOUT + 1 - now else 0, patience
      {
        var t1 := ReadClock();
        if t1 - t0 > START_TIMEOUT {
          return Err(Timeout), wait', times;
        }
        WaitedSnoc(wait, t0, times, t1);
        times := times + [t1];
        ObserveSound(FIRST_YIELD, START_TIMEOUT, wait', t1 - t0);
        if t1 - t0 > wait'.threshold {
          wait' := Wait(wait'.threshold * 2, wait'.count + 1);
          Interfere();
        }
        taken := CmdTaken();
      }
      r := Ok;
    }

    /** ll_set_clk_div asserts its argument; its callers have to respect that. */
    method SetHostDivider(div: nat)
      requires Acceptable(div)
      modifies this`hostDiv
      ensures hostDiv == div
    {
      hostDiv := div;
    }

    predicate SlotInitialized(slot: Slot)
      reads this`slots
    {
      slots.At(slot).hostDiv != 0
    }

    /** The host divider after start_cmd for a slot: reprogrammed only when the slot becomes active. */
    function DivAfter(slot: Slot): nat
      reads this`slots, this`activeSlot, this`hostDiv
    {
      if activeSlot != Some(slot) && SlotInitialized(slot) then slots.At(slot).hostDiv else hostDiv
    }

    /** The host divider programmed is the one of the active slot. */
    predicate Coherent()
      reads this`slots, this`activeSlot, this`hostDiv
    {
      activeSlot.Some? ==> hostDiv == slots.At(activeSlot.value).hostDiv
    }

    /** The first part of start_cmd: make an initialised slot the active one. */
    method ActivateSlot(slot: Slot)
      requires Valid()
      modifies this`activeSlot, this`hostDiv
      ensures Valid()
      ensures activeSlot == if SlotInitialized(slot) then Some(slot) else old(activeSlot)
      ensures hostDiv == old(DivAfter(slot))
    {
      if activeSlot != Some(slot) {
        if SlotInitialized(slot) {
          activeSlot := Some(slot);
          SetHostDivider(slots.At(slot).hostDiv);
        }
      }
    }

    /** Writes the argument, then the command word with its start bit; the controller may act before and in between. */
    method WriteCommand(arg: U32, word: Word)
      requires Valid() && Get(word, StartCommand)
      modifies this`box, this`latched, this`takenAt
      ensures Valid()
      ensures Started(box) && box.cmd == word && box.written == old(box.written) + [(word, arg)]
      ensures !Started(old(box)) ==> box == SetCmd(SetArg(old(box), arg), word) && latched == old(latched)
      ensures box.clobbered > old(box.clobbered) ==> Started(old(box))
      ensures latched == old(latched) || latched == old(latched) + [clock]
      ensures TakenSince(old(takenAt), old(latched), takenAt, latched)
      ensures old(box.taken) <= box.taken
    {
      Interfere();
      box := SetArg(box, arg);
      Interfere();
      box := SetCmd(box, word);
    }

    /** The command written last, and the one taken last. */
    ghost predicate LastTaken(pair: (Word, U32))
      reads this`box
    {
      && box.written != [] && box.written[|box.written| - 1] == pair
      && box.taken != [] && box.taken[|box.taken| - 1] == pair
    }

    /** A clock update for a voltage switch was the last command written, or it timed out. */
    ghost predicate UpdateTried(r: Outcome, slot: Slot, since: nat)
      reads this`box, this`now
    {
      || (r == Ok && box.written != [] && box.written[|box.written| - 1] == UpdateSent(slot, true))
      || (r == Err(Timeout) && now - since > START_TIMEOUT)
    }

    /** The card-detect and write-protect inputs, read anew: a card may come or go at any time. */
    method ReadInputs()
      modifies this`noCard, this`protected
    {
      noCard, protected := *, *;
    }

    /**
     * By the inputs as last read, start_cmd refuses to send when there is no card, and data
     * commands with the rw bit to a protected slot.
     */
    predicate Refuses(slot: Slot, cmd: Word)
      reads this`noCard, this`protected
    {
      || (slot in noCard && !Get(cmd, UpdateClkReg))
      || (Get(cmd, DataExpected) && Get(cmd, Rw) && slot in protected)
    }

    /** Write a command and wait until it is taken. */
    method WriteAndAwait(word: Word, arg: U32, t0: nat, wait: Wait) returns (r: Outcome, wait': Wait)
      requires Valid() && Get(word, StartCommand) && t0 <= now
      requires Sound(FIRST_YIELD, START_TIMEOUT, wait)
      modifies this`box, this`latched, this`takenAt, this`now, this`patience, this`clockReads
      ensures Valid() && now >= old(now) && Sound(FIRST_YIELD, START_TIMEOUT, wait')
      ensures r == Ok || (r == Err(Timeout) && now - t0 > START_TIMEOUT)
      ensures box.written == old(box.written) + [(word, arg)]
      ensures r == Ok ==> !Started(box)
      ensures !Started(old(box)) ==> box.clobbered == old(box.clobbered)
      ensures r == Ok && !Started(old(box)) ==> box.taken == old(box.taken) + [(word, arg)]
      ensures Latches(old(latched), latched, clock)
      ensures r == Ok && !Started(old(box)) ==>
        |latched| == |old(latched)| + if Get(word, UpdateClkReg) then 1 else 0
      ensures TakenSince(old(takenAt), old(latched), takenAt, latched)
      ensures old(box.taken) <= box.taken
    {
      WriteCommand(arg, word);
      ghost var times;
      r, wait', times := AwaitTaken(t0, wait);
    }

    /**
     * The second part of start_cmd: wait for a free mailbox if `patient`, write, and wait for
     * the command to be taken. `count` is the number of yields in both waits together.
     */
    method SendWord(word: Word, arg: U32, patient: bool) returns (r: Outcome, count: nat)
      requires Valid() && Get(word, StartCommand)
      modifies this`box, this`latched, this`takenAt, this`now, this`patience, this`clockReads
      ensures Valid() && now >= old(now) && count <= 4
      ensures r == Ok || (r == Err(Timeout) && now - old(now) > START_TIMEOUT)
      ensures box.written == old(box.written) || box.written == old(box.written) + [(word, arg)]
      ensures r == Ok ==> box.written == old(box.written) + [(word, arg)] && !Started(box)
      ensures !patient ==> box.written == old(box.written) + [(word, arg)]
      ensures patient || !Started(old(box)) ==> box.clobbered == old(box.clobbered)
      ensures r == Ok && patient ==> box.taken == old(box.taken) + Waiting(old(box)) + [(word, arg)]
      ensures Latches(old(latched), latched, clock)
      ensures r == Ok && patient ==>
        |latched| == |old(latched)| + Updates(old(box)) + if Get(word, UpdateClkReg) then 1 else 0
      ensures TakenSince(old(takenAt), old(latched), takenAt, latched)
      ensures old(box.taken) <= box.taken
    {
      var wait := Begin(FIRST_YIELD);
      var t0 := ReadClock();
      assert Sound(FIRST_YIELD, START_TIMEOUT, wait);
      if patient {
        ghost var times;
        r, wait, times := AwaitTaken(t0, wait);
        if r != Ok {
          DriverLimits(wait);
          return r, wait.count;
        }
      }
      r, wait := WriteAndAwait(word, arg, t0, wait);
      DriverLimits(wait);
      count := wait.count;
    }

    /** start_cmd once the command is not refused. */
    method SendStarted(slot: Slot, cmd: Word, arg: U32) returns (r: Outcome, count: nat)
      requires Valid()
      modifies this`box, this`latched, this`takenAt, this`now, this`patience, this`clockReads
      ensures Valid() && now >= old(now) && count <= 4
      ensures r == Ok || (r == Err(Timeout) && now - old(now) > START_TIMEOUT)
      ensures box.written == old(box.written) || box.written == old(box.written) + [(StartWord(cmd, slot), arg)]
      ensures r == Ok ==> box.written == old(box.written) + [(StartWord(cmd, slot), arg)] && !Started(box)
      ensures IsVoltageUpdate(cmd) ==> box.written == old(box.written) + [(StartWord(cmd, slot), arg)]
      ensures !IsVoltageUpdate(cmd) || !Started(old(box)) ==> box.clobbered == old(box.clobbered)
      ensures r == Ok && !IsVoltageUpdate(cmd) ==>
        box.taken == old(box.taken) + Waiting(old(box)) + [(StartWord(cmd, slot), arg)]
      ensures Latches(old(latched), latched, clock)
      ensures r == Ok && !IsVoltageUpdate(cmd) ==>
        |latched| == |old(latched)| + Updates(old(box)) + if Get(cmd, UpdateClkReg) then 1 else 0
      ensures TakenSince(old(takenAt), old(latched), takenAt, latched)
      ensures old(box.taken) <= box.taken
    {
      StartWordGets(cmd, slot, UpdateClkReg);
      StartWordGets(cmd, slot, StartCommand);
      r, count := SendWord(StartWord(cmd, slot), arg, !IsVoltageUpdate(cmd));
    }

    /**
     * Sends one command word. Only a clock update for a voltage switch does not wait for the
     * mailbox to be free.
     */
    method StartCmd(slot: Slot, cmd: Word, arg: U32) returns (r: Outcome, count: nat)
      requires Valid()
      modifies this`box, this`latched, this`takenAt, this`now, this`patience, this`clockReads
      modifies this`activeSlot, this`hostDiv, this`noCard, this`protected
      ensures Valid() && now >= old(now) && count <= 4
      ensures activeSlot == if SlotInitialized(slot) then Some(slot) else old(activeSlot)
      ensures hostDiv == old(DivAfter(slot))
      ensures r == Ok || r == Err(NotFound) || (r == Err(Timeout) && now - old(now) > START_TIMEOUT)
      ensures r == Err(NotFound) <==>
        || (slot in noCard && !Get(cmd, UpdateClkReg))
        || (slot in protected && Get(cmd, DataExpected) && Get(cmd, Rw))
      ensures r == Err(NotFound) ==> box == old(box) && latched == old(latched)
      ensures box.written == old(box.written) || box.written == old(box.written) + [(StartWord(cmd, slot), arg)]
      ensures r == Ok ==> box.written == old(box.written) + [(StartWord(cmd, slot), arg)] && !Started(box)
      ensures !IsVoltageUpdate(cmd) || !Started(old(box)) ==> box.clobbered == old(box.clobbered)
      ensures r == Ok && !IsVoltageUpdate(cmd) ==>
        box.taken == old(box.taken) + Waiting(old(box)) + [(StartWord(cmd, slot), arg)]
      ensures Latches(old(latched), latched, clock)
      ensures r == Ok && !IsVoltageUpdate(cmd) ==>
        |latched| == |old(latched)| + Updates(old(box)) + if Get(cmd, UpdateClkReg) then 1 else 0
      ensures TakenSince(old(takenAt), old(latched), takenAt, latched)
      ensures old(box.taken) <= box.taken
    {
      ActivateSlot(slot);
      ReadInputs();
      if Refuses(slot, cmd) {
        return Err(NotFound), 0;
      }
      r, count := SendStarted(slot, cmd, arg);
    }

    /** start_cmd with any command but a clock update: it is taken under what is latched by then. */
    method StartPlain(slot: Slot, cmd: Word, arg: U32) returns (r: Outcome)
      requires Valid() && !Get(cmd, UpdateClkReg)
      modifies this`box, this`latched, this`takenAt, this`now, this`patience, this`clockReads
      modifies this`activeSlot, this`hostDiv, this`noCard, this`protected
      ensures Valid() && now >= old(now) && box.clobbered == old(box.clobbered)
      ensures hostDiv == old(DivAfter(slot))
      ensures Latches(old(latched), latched, clock) && old(box.taken) <= box.taken
      ensures r == Ok ==>
        && LastTaken((StartWord(cmd, slot), arg)) && !Started(box) && |box.taken| > |old(box.taken)|
        && takenAt != [] && |old(latched)| - 1 <= takenAt[|takenAt| - 1] < |latched|
      ensures r != Ok ==>
        || (r == Err(Timeout) && now - old(now) > START_TIMEOUT)
        || (r == Err(NotFound) && (slot in noCard || (Get(cmd, DataExpected) && Get(cmd, Rw) && slot in protected)))
    {
      var count;
      r, count := StartCmd(slot, cmd, arg);
    }

    /** A slot is set to this frequency, in the slot table, in the dividers, and in what is latched. */
    ghost predicate TunedTo(slot: Slot, freq: nat, divs: (U8, U8))
      reads this`slots, this`hostDiv, this`clock, this`latched
    {
      && slots.At(slot).freqKhz == freq && slots.At(slot).hostDiv == hostDiv == divs.0
      && latched != [] && Ticking(clock, slot, divs.1) && Ticking(latched[|latched| - 1], slot, divs.1)
    }

    /**
     * The last command written, and the last taken by the controller, is this word for the slot
     * with this argument, and it was taken with this card divider in effect.
     */
    ghost predicate SentAs(slot: Slot, word: Word, arg: U32, card: U8)
      reads this`box, this`takenAt, this`latched
    {
      && LastTaken((StartWord(word, slot), arg)) && !Started(box) && takenAt != []
      && var k := takenAt[|takenAt| - 1];
         k < |latched| && Ticking(latched[k], slot, card)
    }

    /** start_cmd with any command but a clock update, for a slot that is set to a frequency. */
    method StartTuned(slot: Slot, cmd: Word, arg: U32, ghost freq: nat, ghost divs: (U8, U8)) returns (r: Outcome)
      requires Valid() && !Get(cmd, UpdateClkReg) && TunedTo(slot, freq, divs) && SlotInitialized(slot)
      modifies this`box, this`latched, this`takenAt, this`now, this`patience, this`clockReads
      modifies this`activeSlot, this`hostDiv, this`noCard, this`protected
      ensures Valid() && now >= old(now) && box.clobbered == old(box.clobbered)
      ensures TunedTo(slot, freq, divs)
      ensures r == Ok ==> SentAs(slot, cmd, arg, divs.1)
      ensures r != Ok ==>
        || (r == Err(Timeout) && now - old(now) > START_TIMEOUT)
        || (r == Err(NotFound) && (slot in noCard || (Get(cmd, DataExpected) && Get(cmd, Rw) && slot in protected)))
    {
      var count;
      ghost var at, l := takenAt, latched;
      r, count := StartCmd(slot, cmd, arg);
      assert forall k :: |l| - 1 <= k < |latched| ==> Ticking(latched[k], slot, divs.1);
      if r == Ok {
        assert |takenAt| > |at|;
        assert LastTaken((StartWord(cmd, slot), arg));
      }
    }

    /** clk_update_cmd: have the controller latch the clock registers. */
    method ClockUpdate(slot: Slot, isCmd11: bool) returns (r: Outcome)
      requires Valid()
      modifies this`box, this`latched, this`takenAt, this`now, this`patience, this`clockReads
      modifies this`activeSlot, this`hostDiv, this`noCard, this`protected
      ensures Valid() && now >= old(now)
      ensures activeSlot == if SlotInitialized(slot) then Some(slot) else old(activeSlot)
      ensures hostDiv == old(DivAfter(slot))
      ensures r == Ok || (r == Err(Timeout) && now - old(now) > START_TIMEOUT)
      ensures r == Ok ==> !Started(box)
      ensures !isCmd11 || !Started(old(box)) ==> box.clobbered == old(box.clobbered)
      ensures Latches(old(latched), latched, clock)
      ensures r == Ok && !isCmd11 ==> |latched| == |old(latched)| + Updates(old(box)) + 1
      ensures r == Ok ==> box.written == old(box.written) + [UpdateSent(slot, isCmd11)]
      ensures r == Ok && !isCmd11 ==> box.taken == old(box.taken) + Waiting(old(box)) + [UpdateSent(slot, false)]
      ensures old(box.taken) <= box.taken
    {
      var word := ClockUpdateWord(slot, isCmd11);
      ClockUpdateGets(slot, isCmd11);
      var count;
      r, count := StartCmd(slot, word, 0);
    }

    /**
     * set_card_clk: switch the clock off, program the dividers, switch it on again, each step
     * latched by a clock update that may time out. On success the divider was latched while the
     * clock was off, and the clock was latched on after that.
     */
    method SetCardClk(slot: Slot, freq: nat) returns (r: Outcome)
      requires Valid() && freq >= 1
      modifies this
      ensures Valid() && now >= old(now)
      ensures box.clobbered == old(box.clobbered)
      ensures r == Ok || (r == Err(Timeout) && now - old(now) > START_TIMEOUT)
      ensures slots == if r == Ok
        then old(slots).Put(slot, SlotCtx(freq, GetClkDivs(freq).0, old(slots).At(slot).isUhs1)) else old(slots)
      ensures old(latched) <= latched && old(dividerWrites) <= dividerWrites
      ensures r == Ok ==>
        |dividerWrites| == |old(dividerWrites)| + 1 && dividerWrites[|old(dividerWrites)|].slot == slot
      ensures r == Ok ==>
        var n := |latched|;
        && n >= |old(latched)| + 3 && !Started(box)
        && latched[n - 1] == clock && slot in clock.enable && slot in clock.lowPower
        && DividerOf(latched[n - 1], slot) == GetClkDivs(freq).1
        && DividerOf(latched[n - 2], slot) == GetClkDivs(freq).1 && slot !in latched[n - 2].enable
        && slot !in latched[n - 3].enable
      ensures r == Ok ==> SlotInitialized(slot)
      ensures activeSlot == if old(SlotInitialized(slot)) then Some(slot) else old(activeSlot)
      ensures if r == Ok then hostDiv == GetClkDivs(freq).0
              else hostDiv == GetClkDivs(freq).0 || hostDiv == old(DivAfter(slot))
      ensures r == Ok ==>
        (Coherent() <==> old(SlotInitialized(slot)) || activeSlot == None
                         || old(slots).At(activeSlot.value).hostDiv == GetClkDivs(freq).0)
      ensures r != Ok && old(Coherent()) ==>
        Coherent() || slots.At(activeSlot.value).hostDiv != GetClkDivs(freq).0
      ensures old(box.taken) <= box.taken
    {
      HostDivRange(freq);
      Interfere();
      r := StopAndDivide(slot, GetClkDivs(freq).0, GetClkDivs(freq).1);
      if r != Ok {
        return;
      }
      r := StartClock(slot);
      if r != Ok {
        return;
      }
      slots := slots.Put(slot, SlotCtx(freq, GetClkDivs(freq).0, slots.At(slot).isUhs1));
    }

    /** The first of the three steps: clock off, latched. */
    method StopClock(slot: Slot) returns (r: Outcome)
      requires Valid()
      modifies this`box, this`latched, this`takenAt, this`now, this`patience, this`clockReads
      modifies this`activeSlot, this`hostDiv, this`noCard, this`protected, this`clock
      ensures Valid() && now >= old(now)
      ensures box.clobbered == old(box.clobbered)
      ensures r == Ok || (r == Err(Timeout) && now - old(now) > START_TIMEOUT)
      ensures old(latched) <= latched
      ensures clock == old(clock).(enable := old(clock).enable - {slot})
      ensures r == Ok ==> !Started(box) && latched[|latched| - 1] == clock && |latched| > |old(latched)|
      ensures activeSlot == if SlotInitialized(slot) then Some(slot) else old(activeSlot)
      ensures hostDiv == old(DivAfter(slot))
      ensures old(box.taken) <= box.taken
    {
      Interfere();
      clock := clock.(enable := Switch(clock.enable, slot, false));
      r := ClockUpdate(slot, false);
    }

    /** The second of the three steps, the clock being off: the new dividers, latched. */
    method Divide(slot: Slot, host: nat, card: U8) returns (r: Outcome)
      requires Valid() && Acceptable(host)
      requires !Started(box) && latched[|latched| - 1] == clock && slot !in clock.enable
      modifies this`box, this`latched, this`takenAt, this`now, this`patience, this`clockReads
      modifies this`activeSlot, this`hostDiv, this`noCard, this`protected, this`clock, this`dividerWrites
      ensures Valid() && now >= old(now)
      ensures box.clobbered == old(box.clobbered)
      ensures r == Ok || (r == Err(Timeout) && now - old(now) > START_TIMEOUT)
      ensures dividerWrites == old(dividerWrites) + [DividerWrite(slot, old(clock))]
      ensures clock == SetCardDivider(old(clock), slot, card)
      ensures Latches(old(latched), latched, clock)
      ensures r == Ok ==> !Started(box) && |latched| == |old(latched)| + 1
      ensures activeSlot == if SlotInitialized(slot) then Some(slot) else old(activeSlot)
      ensures hostDiv == if activeSlot == old(activeSlot) then host else slots.At(slot).hostDiv
      ensures old(box.taken) <= box.taken
    {
      Interfere();
      ProgramDividers(slot, host, card);
      Interfere();
      r := ClockUpdate(slot, false);
    }

    /** The first two of the three steps: clock off, then the new dividers, both latched. */
    method StopAndDivide(slot: Slot, host: nat, card: U8) returns (r: Outcome)
      requires Valid() && Acceptable(host)
      modifies this`box, this`latched, this`takenAt, this`now, this`patience, this`clockReads
      modifies this`activeSlot, this`hostDiv, this`noCard, this`protected, this`clock, this`dividerWrites
      ensures Valid() && now >= old(now)
      ensures box.clobbered == old(box.clobbered)
      ensures r == Ok || (r == Err(Timeout) && now - old(now) > START_TIMEOUT)
      ensures old(latched) <= latched && old(dividerWrites) <= dividerWrites
      ensures r == Ok ==>
        |dividerWrites| == |old(dividerWrites)| + 1 && dividerWrites[|old(dividerWrites)|].slot == slot
      ensures r == Ok ==>
        var n := |latched|;
        && n >= |old(latched)| + 2 && !Started(box)
        && latched[n - 1] == clock && slot !in clock.enable && DividerOf(clock, slot) == card
        && slot !in latched[n - 2].enable
      ensures activeSlot == if SlotInitialized(slot) then Some(slot) else old(activeSlot)
      ensures if r == Ok then hostDiv == host else hostDiv == host || hostDiv == old(DivAfter(slot))
      ensures old(box.taken) <= box.taken
    {
      r := StopClock(slot);
      if r == Ok {
        r := Divide(slot, host, card);
      }
    }

    /** The last of the three steps: clock on, in low-power mode, latched. */
    method StartClock(slot: Slot) returns (r: Outcome)
      requires Valid()
      modifies this`box, this`latched, this`takenAt, this`now, this`patience, this`clockReads
      modifies this`activeSlot, this`hostDiv, this`noCard, this`protected, this`clock
      ensures Valid() && now >= old(now)
      ensures box.clobbered == old(box.clobbered)
      ensures r == Ok || (r == Err(Timeout) && now - old(now) > START_TIMEOUT)
      ensures old(latched) <= latched
      ensures clock == old(clock).(enable := old(clock).enable + {slot}, lowPower := old(clock).lowPower + {slot})
      ensures r == Ok ==> !Started(box) && latched[|latched| - 1] == clock
      ensures r == Ok && !Started(old(box)) ==> |latched| == |old(latched)| + 1
      ensures activeSlot == if SlotInitialized(slot) then Some(slot) else old(activeSlot)
      ensures hostDiv == old(DivAfter(slot))
      ensures old(box.taken) <= box.taken
    {
      Interfere();
      clock := clock.(enable := Switch(clock.enable, slot, true));
      Interfere();
      clock := clock.(lowPower := Switch(clock.lowPower, slot, true));
      r := ClockUpdate(slot, false);
    }

    method ProgramDividers(slot: Slot, host: nat, card: U8)
      requires Valid() && Acceptable(host)
      requires slot !in latched[|latched| - 1].enable
      modifies this`clock, this`hostDiv, this`dividerWrites
      ensures Valid()
      ensures clock == SetCardDivider(old(clock), slot, card) && hostDiv == host
      ensures dividerWrites == old(dividerWrites) + [DividerWrite(slot, latched[|latched| - 1])]
    {
      clock := SetCardDivider(clock, slot, card);
      dividerWrites := dividerWrites + [DividerWrite(slot, latched[|latched| - 1])];
      SetHostDivider(host);
    }

    /** set_clk_always_on: the result of the clock update is ignored. */
    method SetClkAlwaysOn(slot: Slot, en: bool)
      requires Valid()
      modifies this
      ensures Valid() && now >= old(now)
      ensures clock == old(clock).(lowPower := Switch(old(clock).lowPower, slot, en))
      ensures box.clobbered == old(box.clobbered)
      ensures slots == old(slots) && old(latched) <= latched && dividerWrites == old(dividerWrites)
      ensures hostDiv == old(DivAfter(slot))
      ensures activeSlot == if SlotInitialized(slot) then Some(slot) else old(activeSlot)
      ensures forall k :: |old(latched)| <= k < |latched| ==> latched[k] == old(clock) || latched[k] == clock
      ensures now - old(now) > START_TIMEOUT
        || (!Started(box) && LastTaken(UpdateSent(slot, false)) && latched[|latched| - 1] == clock
            && |latched| > |old(latched)| && |box.taken| > |old(box.taken)|)
      ensures old(box.taken) <= box.taken
    {
      Interfere();
      clock := clock.(lowPower := Switch(clock.lowPower, slot, en));
      var r := ClockUpdate(slot, false);
    }

    /** set_clk_always_on for a slot that is set to a frequency: it stays so. */
    method KeepOn(slot: Slot, ghost freq: nat, ghost divs: (U8, U8))
      requires Valid() && TunedTo(slot, freq, divs) && SlotInitialized(slot)
      modifies this
      ensures Valid() && now >= old(now) && box.clobbered == old(box.clobbered)
      ensures TunedTo(slot, freq, divs) && SlotInitialized(slot) && slot in clock.lowPower
      ensures now - old(now) > START_TIMEOUT || |latched| > |old(latched)|
      ensures old(latched) <= latched
    {
      ghost var l, was := latched, clock;
      SetClkAlwaysOn(slot, true);
      assert |latched| > |l| ==> latched[|latched| - 1] == was || latched[|latched| - 1] == clock;
    }

    /**
     * enable_clk_cmd11: the clock update that does not wait for the mailbox. The enable bit is
     * taken from the number of the slot, not from its bit.
     */
    method EnableClkCmd11(slot: Slot, en: bool) returns (r: Outcome)
      requires Valid()
      modifies this
      ensures Valid() && now >= old(now)
      ensures slots == old(slots) && old(latched) <= latched && dividerWrites == old(dividerWrites)
      ensures !Started(old(box)) ==> box.clobbered == old(box.clobbered)
      ensures clock == old(clock).(enable := if slot == Slot0 then old(clock).enable
                                             else if en then old(clock).enable + {Slot0}
                                             else old(clock).enable - {Slot0})
      ensures UpdateTried(r, slot, old(now))
      ensures old(box.taken) <= box.taken
    {
      Interfere();
      clock := clock.(enable := if en then clock.enable + CastBit(slot) else clock.enable - CastBit(slot));
      r := ClockUpdate(slot, true);
    }

    /**
     * Giving a second slot its first clock, with another host divider than that of the active
     * slot, leaves the active slot with the wrong one; its next command does not set it right.
     */
    method SecondSlotExample(first: Slot, second: Slot, freq: nat, word: Word, arg: U32) returns (r: Outcome)
      requires Valid() && freq >= 1 && activeSlot == Some(first)
      requires !SlotInitialized(second) && slots.At(first).hostDiv != GetClkDivs(freq).0
      modifies this
      ensures r == Ok ==> activeSlot == Some(first) && hostDiv == GetClkDivs(freq).0 && !Coherent()
    {
      HostDivRange(freq);
      r := SetCardClk(second, freq);
      var r', count := StartCmd(first, word, arg);
    }

    /** module_reset: sets the three reset bits, one after the other; each may clear at any time. */
    method ModuleReset()
      modifies this`resetBits, this`resetsAsked
      ensures resetsAsked == old(resetsAsked) + [Controller, Dma, Fifo]
    {
      AskReset(Controller);
      AskReset(Dma);
      AskReset(Fifo);
    }

    /** A plain write of CTRL with one reset bit; whether the others stay set is up to the controller. */
    method AskReset(bit: ResetBit)
      modifies this`resetBits, this`resetsAsked
      ensures resetsAsked == old(resetsAsked) + [bit] && resetBits <= old(resetBits) + {bit}
    {
      var stay: set<ResetBit> := *;
      resetBits := (resetBits * stay) + {bit};
      resetsAsked := resetsAsked + [bit];
    }

    /** is_module_reset_done: the bits clear by themselves, at some time or never. */
    method ResetDone() returns (done: bool)
      modifies this`resetBits
      ensures resetBits <= old(resetBits) && (done <==> resetBits == {})
    {
      var stay: set<ResetBit> := *;
      resetBits := resetBits * stay;
      done := Controller !in resetBits && Dma !in resetBits && Fifo !in resetBits;
      if done {
        forall b: ResetBit ensures b !in resetBits {
          match b {
            case Controller =>
            case Dma =>
            case Fifo =>
          }
        }
      }
    }

    /** reset: all three parts, then wait up to five seconds for all of them, yielding at most six times. */
    method Reset() returns (r: Outcome, count: nat, ghost t0: nat, ghost times: seq<nat>)
      modifies this`now, this`patience, this`clockReads, this`resetBits, this`resetsAsked
      ensures now >= old(now) && count <= 6
      ensures clockReads == old(clockReads) + [t0] + times + if r == Ok then [] else [now]
      ensures count == Waited(Begin(100_000), t0, times).count
      ensures resetsAsked == old(resetsAsked) + [Controller, Dma, Fifo]
      ensures r == Ok || (r == Err(Timeout) && now - old(now) > 5_000_000)
      ensures r == Ok <==> resetBits == {}
    {
      ModuleReset();
      var wait := Begin(FIRST_YIELD);
      assert Sound(FIRST_YIELD, RESET_TIMEOUT, wait);
      var start := ReadClock();
      t0, times := start, [];
      var done := ResetDone();
      while !done
        invariant start == t0 <= now && old(now) <= t0
        invariant Sound(FIRST_YIELD, RESET_TIMEOUT, wait)
        invariant done <==> resetBits == {}
        invariant resetsAsked == old(resetsAsked) + [Controller, Dma, Fifo]
        invariant clockReads == old(clockReads) + [t0] + times && wait == Waited(Begin(FIRST_YIELD), t0, times)
        decreases if now <= t0 + RESET_TIMEOUT then t0 + RESET_TIMEOUT + 1 - now else 0, patience
      {
        var t1 := ReadClock();
        if t1 - start > RESET_TIMEOUT {
          DriverLimits(wait);
          return Err(Timeout), wait.count, t0, times;
        } else if t1 - start > wait.threshold {
          ObserveSound(FIRST_YIELD, RESET_TIMEOUT, wait, t1 - start);
          wait := Wait(wait.threshold * 2, wait.count + 1);
        }
        WaitedSnoc(Begin(FIRST_YIELD), t0, times, t1);
        times := times + [t1];
        done := ResetDone();
      }
      DriverLimits(wait);
      return Ok, wait.count, t0, times;
    }

    /** The clock and reset part of init. */
    method Init() returns (r: Outcome)
      requires Valid()
      modifies this`hostDiv, this`now, this`patience, this`clockReads, this`resetBits, this`resetsAsked
      ensures Valid() && hostDiv == 2
      ensures r == Ok || (r == Err(Timeout) && now - old(now) > 5_000_000)
      ensures r == Ok <==> resetBits == {}
      ensures resetsAsked == old(resetsAsked) + [Controller, Dma, Fifo]
    {
      SetHostDivider(2);
      var count;
      ghost var t0, times;
      r, count, t0, times := Reset();
    }

    /** is_slot_set_to_uhs1: an error for a slot that was never given a clock. */
    method IsSlotSetToUhs1(slot: Slot) returns (r: Outcome, uhs1: bool)
      ensures r == if SlotInitialized(slot) then Ok else Err(InvalidState)
      ensures r == Ok ==> uhs1 == slots.At(slot).isUhs1
    {
      if !SlotInitialized(slot) {
        return Err(InvalidState), false;
      }
      return Ok, slots.At(slot).isUhs1;
    }

    /** One call from above, whatever comes of it. */
    method Serve(q: Request) returns (r: Outcome)
      requires Valid() && Admissible(q)
      modifies this
      ensures Valid()
      ensures box.clobbered == old(box.clobbered)
      ensures old(dividerWrites) <= dividerWrites
      ensures forall s: Slot :: old(SlotInitialized(s)) ==> SlotInitialized(s)
      ensures q.SetClock? && r == Ok ==> SlotInitialized(q.slot)
      ensures q.SetClock? && r == Ok ==> slots.At(q.slot).freqKhz == q.freq && |dividerWrites| > |old(dividerWrites)|
      ensures q.Send? && r == Ok ==> LastTaken((StartWord(q.word, q.slot), q.arg))
      ensures q.AlwaysOn? ==> (q.slot in clock.lowPower <==> q.en)
    {
      r := Ok;
      match q {
        case SetClock(slot, freq) =>
          HostDivRange(freq);
          r := SetCardClk(slot, freq);
        case Send(slot, word, arg) =>
          var count;
          r, count := StartCmd(slot, word, arg);
        case AlwaysOn(slot, en) => SetClkAlwaysOn(slot, en);
      }
    }

    /**
     * Any history of calls, whatever fails in between: no command is lost or reordered, the card
     * divider is only written while the slot's clock is off, and the slot table stays sound.
     */
    method Session(requests: seq<Request>) returns (results: seq<Outcome>)
      requires Valid()
      requires forall i :: 0 <= i < |requests| ==> Admissible(requests[i])
      modifies this
      ensures Valid() && |results| == |requests|
      ensures box.clobbered == old(box.clobbered)
      ensures old(box.clobbered) == 0 ==> Orderly(box)
      ensures old(dividerWrites) <= dividerWrites && DividersQuiet(dividerWrites)
      ensures forall i :: 0 <= i < |requests| && requests[i].SetClock? && results[i] == Ok ==>
        SlotInitialized(requests[i].slot)
    {
      results := [];
      for i := 0 to |requests|
        invariant Valid() && |results| == i
        invariant box.clobbered == old(box.clobbered)
        invariant old(dividerWrites) <= dividerWrites
        invariant forall j :: 0 <= j < i && requests[j].SetClock? && results[j] == Ok ==>
          SlotInitialized(requests[j].slot)
      {
        var r := Serve(requests[i]);
        results := results + [r];
      }
    }
  }
}
