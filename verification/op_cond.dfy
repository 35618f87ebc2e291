/**
 * The operating-condition loop (cmd_send_op_cond and init_ocr in src/sdmmc_sd), the card's side
 * being any sequence of outcomes. SD Physical Layer Simplified Specification, section 4.2.3.1.
 */
module OpCond {
  import opened Common
  import opened HwCmd
  import opened Cmd
  import opened ClockDiv
  import Sdmmc

  const MAX_ERRORS: nat := 3
  const MAX_RETRIES: nat := 300

  /** What sending one command comes to: the first response word, or an error. */
  datatype Reply = Reply(response: Word) | Failure(error: Error)

  /** The card's side of one attempt: the reply to the application prefix CMD55, and to the command. */
  datatype Attempt = Attempt(prefix: Reply, reply: Reply)

  /** send_app_cmd: the prefix must succeed and announce application commands. */
  function SendAppCmd(a: Attempt): Reply {
    match a.prefix
    case Failure(e) => Failure(e)
    case Reply(resp) => if MMC_R1_APP_CMD in resp then a.reply else Failure(NotSupported)
  }

  /** What an attempt comes to if the host gets its commands out; CMD55 comes first when `isMmc` is set. */
  function OutcomeOf(isMmc: bool, a: Attempt): Reply { if isMmc then SendAppCmd(a) else a.reply }

  /**
   * One attempt as it went: its reply, where in the host's taken commands its own are, in the
   * stretch from `from` to `to`, how long the host took, and whether there was no card.
   */
  datatype Exchange = Exchange(reply: Reply, from: nat, app: nat, cmd: nat, to: nat, waited: nat, noCard: bool)

  // ---- the loop, told from what its attempts came to ----

  /** A reply that ends the loop well: the card is ready, or nothing was asked of it. */
  predicate Ready(asked: U32, r: Reply) {
    r.Reply? && (MMC_OCR_MEM_READY in r.response || asked == 0)
  }

  /** How many of the first `n` attempts failed. */
  function Errors(log: seq<Exchange>, n: nat): nat
    requires n <= |log|
  {
    if n == 0 then 0 else Errors(log, n - 1) + if log[n - 1].reply.Failure? then 1 else 0
  }

  /** No attempt before the `i`th was ready. */
  predicate NoneReady(asked: U32, log: seq<Exchange>, i: nat)
    requires i <= |log|
  {
    forall j :: 0 <= j < i ==> !Ready(asked, log[j].reply)
  }

  /** Attempt `i` is the first ready one, and comes before the third error. */
  predicate Succeeds(asked: U32, log: seq<Exchange>, i: nat) {
    i < |log| && Ready(asked, log[i].reply) && Errors(log, i) < 3 && NoneReady(asked, log, i)
  }

  /** Attempt `i` is the third error, and no attempt before it was ready. */
  predicate GivesUp(asked: U32, log: seq<Exchange>, i: nat) {
    i < |log| && log[i].reply.Failure? && Errors(log, i) == 2 && NoneReady(asked, log, i)
  }

  lemma {:induction false} ErrorsMonotone(log: seq<Exchange>, i: nat, j: nat)
    requires i <= j <= |log|
    ensures Errors(log, i) <= Errors(log, j)
  {
    if i < j {
      ErrorsMonotone(log, i, j - 1);
    }
  }

  lemma {:induction false} ErrorsPrefix(log: seq<Exchange>, more: seq<Exchange>, n: nat)
    requires n <= |log|
    ensures Errors(log + more, n) == Errors(log, n)
  {
    if n > 0 {
      ErrorsPrefix(log, more, n - 1);
    }
  }

  /** The loop cannot both succeed and give up, and each happens at one attempt only. */
  lemma Exclusive(asked: U32, log: seq<Exchange>, i: nat, j: nat)
    ensures Succeeds(asked, log, i) ==> !GivesUp(asked, log, j)
    ensures Succeeds(asked, log, i) && Succeeds(asked, log, j) ==> i == j
    ensures GivesUp(asked, log, i) && GivesUp(asked, log, j) ==> i == j
  {
    if j < i < |log| {
      ErrorsMonotone(log, j + 1, i);
    } else if i < j < |log| {
      ErrorsMonotone(log, i + 1, j);
    }
  }

  /** What the loop comes to: success, the third error, or a timeout. */
  ghost function ResultOf(asked: U32, log: seq<Exchange>): Outcome {
    if exists i: nat :: Succeeds(asked, log, i) then Ok
    else if exists i: nat :: GivesUp(asked, log, i) then
      var i: nat :| GivesUp(asked, log, i);
      Err(log[i].reply.error)
    else Err(Timeout)
  }

  /** The loop ends where it must: at its first ready reply or third error, or after 300 attempts. */
  ghost predicate Ends(asked: U32, log: seq<Exchange>) {
    && |log| <= 300
    && (|log| < 300 ==> log != [] && (Succeeds(asked, log, |log| - 1) || GivesUp(asked, log, |log| - 1)))
  }

  /** A log that ends in a ready reply or the third error has the result that this says. */
  lemma EndsWith(asked: U32, log: seq<Exchange>, i: nat)
    requires |log| == i + 1 <= 300
    requires Succeeds(asked, log, i) || GivesUp(asked, log, i)
    ensures Ends(asked, log)
    ensures Succeeds(asked, log, i) ==> ResultOf(asked, log) == Ok
    ensures GivesUp(asked, log, i) ==> ResultOf(asked, log) == Err(log[i].reply.error)
  {
    if GivesUp(asked, log, i) {
      forall j: nat ensures !Succeeds(asked, log, j) && (GivesUp(asked, log, j) ==> i == j) {
        Exclusive(asked, log, j, i);
      }
    }
  }

  lemma Exhausted(asked: U32, log: seq<Exchange>)
    requires NoneReady(asked, log, |log|) && Errors(log, |log|) < 3
    ensures ResultOf(asked, log) == Err(Timeout)
  {
    forall i: nat ensures !Succeeds(asked, log, i) && !GivesUp(asked, log, i) {
      if GivesUp(asked, log, i) {
        ErrorsMonotone(log, i + 1, |log|);
      }
    }
  }

  // ---- what is on the bus ----

  /** CMD1 asks with bits 30:29 of the argument cleared and then bit 30, sector mode, set. */
  function SectorMode(arg: U32): (r: U32)
    ensures r % 0x2000_0000 == arg % 0x2000_0000 && r / 0x8000_0000 == arg / 0x8000_0000
    ensures (r / 0x2000_0000) % 2 == 0 && (r / 0x4000_0000) % 2 == 1
  {
    arg / 0x8000_0000 * 0x8000_0000 + 0x4000_0000 + arg % 0x2000_0000
  }

  /** CMD55 takes the card address in its upper half; what leaves 32 bits is lost. */
  function AppArg(rsa: U32): (a: U32)
    ensures a % 0x10000 == 0 && a / 0x10000 == rsa % 0x10000
  {
    rsa * 0x10000 % 0x1_0000_0000
  }

  // The four command words on the bus, bit by bit: the index (bits 5:0), response expected (6), long (7)
  // and checked (8), wait for completion (13), card 1 (16), hold register (29), start (31).
  const WORD_CMD1: Word := {0, 6, 13, 16, 29, 31}
  const WORD_ACMD41: Word := {0, 3, 5, 6, 13, 16, 29, 31}
  const WORD_CMD55: Word := {0, 1, 2, 4, 5, 6, 8, 13, 16, 29, 31}
  const WORD_CMD58: Word := {1, 3, 4, 5, 6, 7, 8, 13, 16, 29, 31}

  /** The command an attempt sends: ACMD41, or CMD1 in sector mode. */
  function Asking(isMmc: bool, ask: U32): (Word, U32) {
    if isMmc then (WORD_ACMD41, ask) else (WORD_CMD1, SectorMode(ask))
  }

  /** A command without data. */
  function Plain(opcode: U8, arg: U32, flags: Word): Command { Command(opcode, arg, false, 0, 0, flags, 1000) }

  lemma PlainFlags(opcode: U8, arg: U32, flags: Word)
    requires opcode in {1, 41, 55, 58} && SCF_RSP_PRESENT in flags
    ensures (set f: Flag | Asks(Plain(opcode, arg, flags), f)) ==
      {ResponseExpect, WaitComplete} + (if SCF_RSP_CRC in flags then {CheckResponseCrc} else {})
      + (if SCF_RSP_136 in flags then {ResponseLong} else {})
  {}

  /** The fields of a command without data on the bus. */
  function PlainFields(opcode: U8, flags: Word): Fields {
    Fields(opcode, 1,
      {ResponseExpect, WaitComplete} + {UseHoldReg, StartCommand}
      + (if SCF_RSP_CRC in flags then {CheckResponseCrc} else {})
      + (if SCF_RSP_136 in flags then {ResponseLong} else {}))
  }

  lemma PlainDecodes(opcode: U8, arg: U32, flags: Word)
    requires opcode in {1, 41, 55, 58} && SCF_RSP_PRESENT in flags
    ensures Decode(StartWord(MakeHwCmd(Plain(opcode, arg, flags)).value, Slot1)) == PlainFields(opcode, flags)
  {
    var c := Plain(opcode, arg, flags);
    WrittenWord(c, Slot1);
    PlainFlags(opcode, arg, flags);
    var crc: set<Flag> := if SCF_RSP_CRC in flags then {CheckResponseCrc} else {};
    var long: set<Flag> := if SCF_RSP_136 in flags then {ResponseLong} else {};
    WithStart({ResponseExpect, WaitComplete}, crc, long);
  }

  lemma WithStart(a: set<Flag>, b: set<Flag>, c: set<Flag>)
    ensures (a + b + c) + {UseHoldReg, StartCommand} == (a + {UseHoldReg, StartCommand}) + b + c
  {}

  /** A word for slot 1 with this index and these fields is the translated command on the bus. */
  lemma OnBus(opcode: U8, arg: U32, flags: Word, word: Word)
    requires opcode in {1, 41, 55, 58} && SCF_RSP_PRESENT in flags
    requires Decode(word) == PlainFields(opcode, flags)
    ensures StartWord(MakeHwCmd(Plain(opcode, arg, flags)).value, Slot1) == word
  {
    PlainDecodes(opcode, arg, flags);
    SameWord(StartWord(MakeHwCmd(Plain(opcode, arg, flags)).value, Slot1), word);
  }

  lemma Cmd1OnBus(arg: U32)
    ensures StartWord(MakeHwCmd(Plain(MMC_SEND_OP_COND, arg, SCF_RSP_R3)).value, Slot1) == WORD_CMD1
  {
    IndexLayout(WORD_CMD1);
    CardLayout(WORD_CMD1);
    OnBus(1, arg, SCF_RSP_R3, WORD_CMD1);
  }

  lemma Acmd41OnBus(arg: U32)
    ensures StartWord(MakeHwCmd(Plain(SD_APP_OP_COND, arg, SCF_RSP_R3)).value, Slot1) == WORD_ACMD41
  {
    IndexLayout(WORD_ACMD41);
    CardLayout(WORD_ACMD41);
    OnBus(41, arg, SCF_RSP_R3, WORD_ACMD41);
  }

  lemma Cmd55OnBus(arg: U32)
    ensures StartWord(MakeHwCmd(Plain(MMC_APP_CMD, arg, SCF_RSP_R1)).value, Slot1) == WORD_CMD55
  {
    IndexLayout(WORD_CMD55);
    CardLayout(WORD_CMD55);
    OnBus(55, arg, SCF_RSP_R1, WORD_CMD55);
  }

  lemma Cmd58OnBus()
    ensures StartWord(MakeHwCmd(Plain(SD_READ_OCR, 0, SCF_RSP_R2)).value, Slot1) == WORD_CMD58
  {
    IndexLayout(WORD_CMD58);
    CardLayout(WORD_CMD58);
    OnBus(58, 0, SCF_RSP_R2, WORD_CMD58);
  }

  /** An attempt with a reply sent its command, after CMD55 if it has to, in its own stretch of those taken. */
  predicate Carried(taken: seq<(Word, U32)>, x: Exchange, isMmc: bool, rsa: U32, ask: U32) {
    && x.from <= x.to <= |taken|
    && (x.reply.Reply? ==> x.from <= x.cmd < x.to && taken[x.cmd] == Asking(isMmc, ask))
    && (x.reply.Reply? && isMmc ==> x.from <= x.app < x.cmd && taken[x.app] == (WORD_CMD55, AppArg(rsa)))
  }

  /** The reply is what the card's side came to, unless the host waited in vain or found no card. */
  predicate Answered(x: Exchange, isMmc: bool, a: Attempt) {
    || x.reply == OutcomeOf(isMmc, a)
    || (x.reply == Failure(Timeout) && x.waited > 1_000_000)
    || (x.reply == Failure(NotFound) && x.noCard)
  }

  /** A log tells what happened, attempt after attempt. */
  ghost predicate Truthful(taken: seq<(Word, U32)>, log: seq<Exchange>, isMmc: bool,
                           rsa: U32, ask: U32, card: nat -> Attempt)
  {
    && (forall k :: 0 <= k < |log| ==> Carried(taken, log[k], isMmc, rsa, ask) && Answered(log[k], isMmc, card(k)))
    && (forall k :: 0 < k < |log| ==> log[k - 1].to <= log[k].from)
  }

  /** More commands taken do not change what was. */
  lemma StillTruthful(taken: seq<(Word, U32)>, taken': seq<(Word, U32)>, log: seq<Exchange>, isMmc: bool,
                      rsa: U32, ask: U32, card: nat -> Attempt)
    requires taken <= taken' && Truthful(taken, log, isMmc, rsa, ask, card)
    ensures Truthful(taken', log, isMmc, rsa, ask, card)
  {
    forall k | 0 <= k < |log| ensures Carried(taken', log[k], isMmc, rsa, ask) {
      assert Carried(taken, log[k], isMmc, rsa, ask);
    }
  }

  /** One more attempt, after those on record. */
  lemma OneMore(taken: seq<(Word, U32)>, taken': seq<(Word, U32)>, log: seq<Exchange>, x: Exchange, isMmc: bool,
                rsa: U32, ask: U32, card: nat -> Attempt)
    requires taken <= taken' && Truthful(taken, log, isMmc, rsa, ask, card)
    requires Carried(taken', x, isMmc, rsa, ask) && Answered(x, isMmc, card(|log|)) && x.from == |taken|
    ensures Truthful(taken', log + [x], isMmc, rsa, ask, card)
  {
    StillTruthful(taken, taken', log, isMmc, rsa, ask, card);
    var log' := log + [x];
    forall k | 0 <= k < |log'|
      ensures Carried(taken', log'[k], isMmc, rsa, ask) && Answered(log'[k], isMmc, card(k))
    {
      if k < |log| {
        assert log'[k] == log[k];
      }
    }
    if log != [] {
      assert Carried(taken, log[|log| - 1], isMmc, rsa, ask);
    }
  }

  lemma NoneReadySnoc(asked: U32, log: seq<Exchange>, x: Exchange)
    requires NoneReady(asked, log, |log|)
    ensures NoneReady(asked, log + [x], |log|)
    ensures !Ready(asked, x.reply) ==> NoneReady(asked, log + [x], |log| + 1)
    ensures Errors(log + [x], |log|) == Errors(log, |log|)
    ensures Errors(log + [x], |log| + 1) == Errors(log, |log|) + if x.reply.Failure? then 1 else 0
  {
    ErrorsPrefix(log, [x], |log|);
  }

  // The bits of the argument of init_ocr; no two of them share a bit, so or is addition.
  const SD_OCR_VOL_MASK: U32 := 0xFF8000
  const SD_OCR_SDHC_CAP: U32 := 0x4000_0000
  const SD_OCR_XPC: U32 := 0x1000_0000
  const SD_OCR_S18_RA: U32 := 0x100_0000
  /** The position of SD_OCR_SDHC_CAP. */
  const SDHC_CAP_BIT: Bit := 30

  /** The argument init_ocr asks with: the voltages, the capacity class if known, and UHS-I if wanted. */
  function Acmd41Arg(ocr: Word, uhs1: bool): U32 {
    SD_OCR_VOL_MASK
    + (if SDHC_CAP_BIT in ocr then SD_OCR_SDHC_CAP else 0)
    + (if uhs1 then SD_OCR_S18_RA + SD_OCR_XPC else 0)
  }

  /** The four arguments init_ocr can ask with. */
  lemma Acmd41Values(ocr: Word)
    ensures 30 !in ocr ==> Acmd41Arg(ocr, false) == 0x00FF_8000 && Acmd41Arg(ocr, true) == 0x11FF_8000
    ensures 30 in ocr ==> Acmd41Arg(ocr, false) == 0x40FF_8000 && Acmd41Arg(ocr, true) == 0x51FF_8000
  {}

  class Negotiation {
    const host: Sdmmc.Host
    const slot: Slot
    const freqKhz: Khz
    /** The card address as send_app_cmd takes it. */
    const rsa: U32
    var isMmc: bool
    var ocr: Word

    constructor (host: Sdmmc.Host, slot: Slot, freqKhz: Khz, rsa: U32, isMmc: bool)
      ensures this.host == host && this.slot == slot && this.freqKhz == freqKhz && this.rsa == rsa
      ensures this.isMmc == isMmc && ocr == {}
    {
      this.host, this.slot, this.freqKhz, this.rsa, this.isMmc, ocr := host, slot, freqKhz, rsa, isMmc, {};
    }

    /** The slot table as a transaction leaves it: unchanged, or with the slot at the card's frequency. */
    ghost predicate Tuned(slots: Sdmmc.SlotTable, slots': Sdmmc.SlotTable) {
      || slots' == slots
      || slots' == slots.Put(slot, Sdmmc.SlotCtx(freqKhz, GetClkDivs(freqKhz).0, slots.At(slot).isUhs1))
    }

    /** The host has only gone on: in time, in the commands taken, and in the slot table. */
    ghost predicate GoneOn(now: nat, clobbered: nat, taken: seq<(Word, U32)>, slots: Sdmmc.SlotTable)
      reads host
    {
      && host.Valid() && host.now >= now && host.box.clobbered == clobbered
      && taken <= host.box.taken && Tuned(slots, host.slots)
    }

    /** start_cmd with a word that is no clock update and expects no data. */
    method SendWord(word: Word, arg: U32) returns (r: Outcome)
      requires host.Valid() && !Get(word, UpdateClkReg) && !Get(word, DataExpected)
      modifies host
      ensures host.Valid() && host.now >= old(host.now) && host.box.clobbered == old(host.box.clobbered)
      ensures old(host.box.taken) <= host.box.taken && host.slots == old(host.slots)
      ensures r == Ok ==> Newest((StartWord(word, Slot1), arg), |old(host.box.taken)|)
      ensures r != Ok ==> Excused(r, old(host.now))
    {
      r := host.StartPlain(Slot1, word, arg);
    }

    /** This pair was taken last, and more than `n` have been taken. */
    ghost predicate Newest(pair: (Word, U32), n: nat)
      reads host
    {
      |host.box.taken| > n && host.box.taken[|host.box.taken| - 1] == pair
    }

    /** The host waited in vain, or found no card. */
    ghost predicate Excused(r: Outcome, since: nat)
      reads host
    {
      || (r == Err(Timeout) && host.now - since > Sdmmc.START_TIMEOUT)
      || (r == Err(NotFound) && Slot1 in host.noCard)
    }

    /** send_cmd for a command without data, up to the card's reply: set the clock, then send the command. */
    method Transact(c: Command, ghost word: Word) returns (r: Outcome)
      requires host.Valid() && !c.hasData && StartWord(MakeHwCmd(c).value, Slot1) == word
      modifies host
      ensures GoneOn(old(host.now), old(host.box.clobbered), old(host.box.taken), old(host.slots))
      ensures r == Ok ==> Newest((word, c.arg), |old(host.box.taken)|)
      ensures r != Ok ==> Excused(r, old(host.now))
    {
      MakeHwCmdGets(c, UpdateClkReg);
      MakeHwCmdGets(c, DataExpected);
      r := host.SetCardClk(slot, freqKhz);
      if r == Ok {
        r := SendWord(MakeHwCmd(c).value, c.arg);
      }
    }

    method SendCmd55() returns (r: Outcome)
      requires host.Valid()
      modifies host
      ensures GoneOn(old(host.now), old(host.box.clobbered), old(host.box.taken), old(host.slots))
      ensures r == Ok ==> Newest((WORD_CMD55, AppArg(rsa)), |old(host.box.taken)|)
      ensures r != Ok ==> Excused(r, old(host.now))
    {
      Cmd55OnBus(AppArg(rsa));
      r := Transact(Plain(MMC_APP_CMD, AppArg(rsa), SCF_RSP_R1), WORD_CMD55);
    }

    method SendAsking(ask: U32) returns (r: Outcome)
      requires host.Valid()
      modifies host
      ensures GoneOn(old(host.now), old(host.box.clobbered), old(host.box.taken), old(host.slots))
      ensures r == Ok ==> Newest(Asking(isMmc, ask), |old(host.box.taken)|)
      ensures r != Ok ==> Excused(r, old(host.now))
    {
      if isMmc {
        Acmd41OnBus(ask);
        r := Transact(Plain(SD_APP_OP_COND, ask, SCF_RSP_R3), WORD_ACMD41);
      } else {
        Cmd1OnBus(SectorMode(ask));
        r := Transact(Plain(MMC_SEND_OP_COND, SectorMode(ask), SCF_RSP_R3), WORD_CMD1);
      }
    }

    /** One attempt: its transactions, the application prefix first where there is one. */
    method Send(ask: U32, attempt: Attempt) returns (reply: Reply, ghost x: Exchange)
      requires host.Valid()
      modifies host
      ensures GoneOn(old(host.now), old(host.box.clobbered), old(host.box.taken), old(host.slots))
      ensures Tells(x, reply, |old(host.box.taken)|, old(host.now))
      ensures Carried(host.box.taken, x, isMmc, rsa, ask) && Answered(x, isMmc, attempt)
    {
      var r := Ok;
      if isMmc {
        r := SendCmd55();
      }
      ghost var n := |host.box.taken|;
      if r != Ok {
        reply := Failure(r.error);
      } else if isMmc && (attempt.prefix.Failure? || MMC_R1_APP_CMD !in attempt.prefix.response) {
        reply := if attempt.prefix.Failure? then attempt.prefix else Failure(NotSupported);
      } else {
        r := SendAsking(ask);
        reply := if r == Ok then attempt.reply else Failure(r.error);
      }
      x := Exchange(reply, |old(host.box.taken)|, if n > 0 then n - 1 else 0,
                    if |host.box.taken| > 0 then |host.box.taken| - 1 else 0,
                    |host.box.taken|, host.now - old(host.now), Slot1 in host.noCard);
    }

    /** The record of an attempt that began with `n` commands taken, at the time `since`, and has just ended. */
    ghost predicate Tells(x: Exchange, reply: Reply, n: nat, since: nat)
      reads host
    {
      && x.reply == reply && x.from == n && x.to == |host.box.taken|
      && x.waited == host.now - since && x.noCard == (Slot1 in host.noCard)
    }

    /**
     * cmd_send_op_cond: up to 300 attempts, until a ready reply or the third error. Low power is
     * switched off again on every way out.
     */
    method CmdSendOpCond(ask: U32, card: nat -> Attempt) returns (r: Outcome, ghost log: seq<Exchange>)
      requires host.Valid()
      modifies this`ocr, host
      ensures GoneOn(old(host.now), old(host.box.clobbered), old(host.box.taken), old(host.slots))
      ensures slot !in host.clock.lowPower
      ensures Truthful(host.box.taken, log, isMmc, rsa, ask, card)
      ensures Concluded(ask, r, log, old(ocr))
      ensures log != []
      ensures host.now - old(host.now) > Sdmmc.START_TIMEOUT || Updated(|old(host.box.taken)|, log[0].from)
    {
      Power(true);
      r, log := Attempts(ask, card);
      ghost var taken := host.box.taken;
      Power(false);
      StillTruthful(taken, host.box.taken, log, isMmc, rsa, ask, card);
    }

    /** set_clk_always_on for the card's slot. */
    method Power(on: bool)
      requires host.Valid()
      modifies host
      ensures GoneOn(old(host.now), old(host.box.clobbered), old(host.box.taken), old(host.slots))
      ensures slot in host.clock.lowPower <==> on
      ensures host.now - old(host.now) > Sdmmc.START_TIMEOUT || Updated(|old(host.box.taken)|, |host.box.taken|)
    {
      host.SetClkAlwaysOn(slot, on);
    }

    /** A clock update of the slot was the last command taken before the `to`th, and not one of the first `from`. */
    ghost predicate Updated(from: nat, to: nat)
      reads host
    {
      from < to <= |host.box.taken| && host.box.taken[to - 1] == Sdmmc.UpdateSent(slot, false)
    }

    /** The loop has ended where it must, with the result its log says; only success sets the OCR. */
    ghost predicate Concluded(ask: U32, r: Outcome, log: seq<Exchange>, ocrBefore: Word)
      reads this`ocr
    {
      && Ends(ask, log) && r == ResultOf(ask, log)
      && (r == Ok ==> log != [] && Succeeds(ask, log, |log| - 1) && Reply(ocr) == log[|log| - 1].reply)
      && (r != Ok ==> ocr == ocrBefore)
    }

    /** The loop of cmd_send_op_cond. */
    method Attempts(ask: U32, card: nat -> Attempt) returns (r: Outcome, ghost log: seq<Exchange>)
      requires host.Valid()
      modifies this`ocr, host
      ensures GoneOn(old(host.now), old(host.box.clobbered), old(host.box.taken), old(host.slots))
      ensures Truthful(host.box.taken, log, isMmc, rsa, ask, card)
      ensures Concluded(ask, r, log, old(ocr))
      ensures log != [] && log[0].from == |old(host.box.taken)|
    {
      var errCnt: nat := MAX_ERRORS;
      log := [];
      for n := 0 to MAX_RETRIES
        invariant GoneOn(old(host.now), old(host.box.clobbered), old(host.box.taken), old(host.slots))
        invariant Truthful(host.box.taken, log, isMmc, rsa, ask, card)
        invariant |log| == n && NoneReady(ask, log, n)
        invariant if n == 0 then host.box.taken == old(host.box.taken) else log[0].from == |old(host.box.taken)|
        invariant errCnt == MAX_ERRORS - Errors(log, n) && errCnt > 0
        invariant ocr == old(ocr)
      {
        var reply;
        reply, log := Next(ask, card, n, log);
        match reply {
          case Reply(resp) =>
            if MMC_OCR_MEM_READY in resp || ask == 0 {
              ocr := resp;
              assert Succeeds(ask, log, n);
              EndsWith(ask, log, n);
              return Ok, log;
            }
          case Failure(e) =>
            errCnt := errCnt - 1;
            if errCnt == 0 {
              assert GivesUp(ask, log, n);
              EndsWith(ask, log, n);
              return Err(e), log;
            }
        }
      }
      Exhausted(ask, log);
      r := Err(Timeout);
    }

    /** Attempt number `n`, after those on record. */
    method Next(ask: U32, card: nat -> Attempt, n: nat, ghost log: seq<Exchange>)
      returns (reply: Reply, ghost log': seq<Exchange>)
      requires host.Valid() && |log| == n && NoneReady(ask, log, n)
      requires Truthful(host.box.taken, log, isMmc, rsa, ask, card)
      modifies host
      ensures GoneOn(old(host.now), old(host.box.clobbered), old(host.box.taken), old(host.slots))
      ensures Truthful(host.box.taken, log', isMmc, rsa, ask, card)
      ensures |log'| == n + 1 && log'[n].reply == reply && NoneReady(ask, log', n)
      ensures log <= log' && log'[n].from == |old(host.box.taken)|
      ensures !Ready(ask, reply) ==> NoneReady(ask, log', n + 1)
      ensures Errors(log', n) == Errors(log, n)
      ensures Errors(log', n + 1) == Errors(log, n) + if reply.Failure? then 1 else 0
    {
      ghost var taken := host.box.taken;
      ghost var x;
      reply, x := Send(ask, card(n));
      OneMore(taken, host.box.taken, log, x, isMmc, rsa, ask, card);
      NoneReadySnoc(ask, log, x);
      log' := log + [x];
    }

    /**
     * init_ocr: a timeout is taken to mean the other kind of card and tried again; any other
     * failure of the loop is passed over. `read` is the reply to the final READ_OCR.
     */
    method InitOcr(card: nat -> Attempt, retry: nat -> Attempt, read: Reply)
      returns (r: Outcome, ghost first: seq<Exchange>, ghost second: seq<Exchange>)
      requires host.Valid()
      modifies this`ocr, this`isMmc, host
      ensures GoneOn(old(host.now), old(host.box.clobbered), old(host.box.taken), old(host.slots))
      ensures !old(host.SlotInitialized(slot)) ==>
        r == Err(InvalidState) && ocr == old(ocr) && isMmc == old(isMmc) && unchanged(host)
      ensures old(host.SlotInitialized(slot)) ==>
        var ask := Acmd41Arg(old(ocr), old(host.slots.At(slot).isUhs1));
        var o1, o2 := ResultOf(ask, first), ResultOf(ask, second);
        && Ends(ask, first) && Truthful(host.box.taken, first, old(isMmc), rsa, ask, card)
        && (o1 == Err(Timeout) ==>
             Ends(ask, second) && Truthful(host.box.taken, second, true, rsa, ask, retry))
        && isMmc == (old(isMmc) || o1 == Err(Timeout))
        && (o1 == Err(Timeout) && o2 != Ok ==> r == o2)
        && (o1 != Err(Timeout) || o2 == Ok ==> FinalRead(r, read, old(host.now)))
    {
      first, second := [], [];
      var uhs1;
      r, uhs1 := host.IsSlotSetToUhs1(slot);
      if r != Ok {
        return;
      }
      var ask := Acmd41Arg(ocr, uhs1);
      r, first, second := Negotiate(ask, card, retry);
      if r != Ok {
        return;
      }
      ghost var taken := host.box.taken;
      r := ReadOcr(read);
      StillTruthful(taken, host.box.taken, first, old(isMmc), rsa, ask, card);
      StillTruthful(taken, host.box.taken, second, true, rsa, ask, retry);
    }

    /** The loop, and once more as the other card kind after a timeout; other failures are passed over. */
    method Negotiate(ask: U32, card: nat -> Attempt, retry: nat -> Attempt)
      returns (r: Outcome, ghost first: seq<Exchange>, ghost second: seq<Exchange>)
      requires host.Valid()
      modifies this`ocr, this`isMmc, host
      ensures GoneOn(old(host.now), old(host.box.clobbered), old(host.box.taken), old(host.slots))
      ensures Ends(ask, first)
      ensures Truthful(host.box.taken, first, old(isMmc), rsa, ask, card)
      ensures Truthful(host.box.taken, second, true, rsa, ask, retry)
      ensures ResultOf(ask, first) == Err(Timeout) ==> Ends(ask, second) && isMmc && r == ResultOf(ask, second)
      ensures ResultOf(ask, first) != Err(Timeout) ==> isMmc == old(isMmc) && r == Ok
    {
      second := [];
      r, first := CmdSendOpCond(ask, card);
      if r == Err(Timeout) {
        isMmc := true;
        ghost var taken := host.box.taken;
        r, second := CmdSendOpCond(ask, retry);
        StillTruthful(taken, host.box.taken, first, old(isMmc), rsa, ask, card);
      } else {
        r := Ok;
      }
    }

    /** cmd_read_ocr has ended with `r`: the OCR is the one read, by CMD58 on the bus, or there is an excuse. */
    ghost predicate FinalRead(r: Outcome, read: Reply, since: nat)
      reads this`ocr, host
    {
      if r == Ok then Reply(ocr) == read && Newest((WORD_CMD58, 0), 0)
      else (read.Failure? && r == Err(read.error)) || Excused(r, since)
    }

    /** cmd_read_ocr, `read` being the card's reply to it. */
    method ReadOcr(read: Reply) returns (r: Outcome)
      requires host.Valid()
      modifies this`ocr, host
      ensures GoneOn(old(host.now), old(host.box.clobbered), old(host.box.taken), old(host.slots))
      ensures FinalRead(r, read, old(host.now))
    {
      Cmd58OnBus();
      r := Transact(Plain(SD_READ_OCR, 0, SCF_RSP_R2), WORD_CMD58);
      if r == Ok {
        match read {
          case Failure(e) => r := Err(e);
          case Reply(resp) => ocr := resp;
        }
      }
    }
  }
}
