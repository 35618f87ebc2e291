/** Logical commands and their translation to command words (src/cmd.rs, src/sdmmc_sd/cmd.rs). */
module Cmd {
  import opened Common
  import opened HwCmd
  import opened Division

  /** The part of SdmmcCmd the driver reads; `hasData` stands for `data.is_some()`. */
  datatype Command = Command(
    opcode: U8,
    arg: U32,
    hasData: bool,
    datalen: U32,
    blklen: U32,
    flags: Word,
    timeoutMs: nat)

  /** The assertion of make_hw_cmd, with the division it contains. */
  predicate WholeBlocks(c: Command) {
    c.hasData ==> c.blklen != 0 && c.datalen % c.blklen == 0
  }

  /** The size check do_transaction makes before a data transfer. */
  predicate SizeAccepted(c: Command) { c.hasData ==> c.datalen < 4 || c.datalen % 4 == 0 }

  predicate IsMultiple(opcode: U8) {
    || opcode == MMC_WRITE_BLOCK_MULTIPLE
    || opcode == MMC_READ_BLOCK_MULTIPLE
    || opcode == MMC_WRITE_DAT_UNTIL_STOP
    || opcode == MMC_READ_DAT_UNTIL_STOP
  }

  /** The one-bit setters make_hw_cmd calls after with_cmd_index. */
  function Setters(c: Command): seq<Put> {
    [ Put(StopAbortCmd, c.opcode == MMC_STOP_TRANSMISSION),
      Put(SendInit, c.opcode == MMC_GO_IDLE_STATE),
      Put(VoltSwitch, c.opcode == SD_SWITCH_VOLTAGE),
      Put(WaitComplete,
          c.opcode != MMC_STOP_TRANSMISSION && c.opcode != MMC_GO_IDLE_STATE && c.opcode != SD_SWITCH_VOLTAGE),
      Put(ResponseExpect, SCF_RSP_PRESENT in c.flags),
      Put(ResponseLong, SCF_RSP_PRESENT in c.flags && SCF_RSP_136 in c.flags),
      Put(CheckResponseCrc, SCF_RSP_CRC in c.flags),
      Put(DataExpected, c.hasData),
      Put(Rw, c.hasData && SCF_CMD_READ in c.flags),
      Put(SendAutoStop, c.hasData && c.datalen > 0 && IsMultiple(c.opcode))
    ]
  }

  /** The command word for a logical command; None when the assertion fails. */
  function MakeHwCmd(c: Command): Option<Word> {
    if !WholeBlocks(c) then None
    else Some(PutAll(WithCmdIndex({}, c.opcode), Setters(c)))
  }

  /** A command is translated exactly if its data, if any, is a whole number of blocks. */
  lemma TranslatedIff(c: Command)
    ensures MakeHwCmd(c).Some? <==> !c.hasData || (c.blklen > 0 && exists k: nat :: k * c.blklen == c.datalen)
  {
    if c.hasData && c.blklen > 0 {
      QuotientRemainder(c.datalen, c.blklen);
      if k: nat :| k * c.blklen == c.datalen {
        DivGreatest(c.datalen, c.blklen, k);
        DivGreatest(c.datalen, c.blklen, k + 1);
        Distribute(k, c.blklen);
        assert c.datalen / c.blklen == k;
      }
    }
  }

  /** The setters clk_update_cmd calls after with_card_num. */
  function ClockUpdateSetters(isCmd11: bool): seq<Put> {
    [Put(UpdateClkReg, true), Put(WaitComplete, true), Put(VoltSwitch, isCmd11)]
  }

  /** The word clk_update_cmd sends. */
  function ClockUpdateWord(slot: Slot, isCmd11: bool): Word {
    PutAll(WithCardNum({}, slot.Num()), ClockUpdateSetters(isCmd11))
  }

  lemma ClockUpdateGets(slot: Slot, isCmd11: bool)
    ensures var w := ClockUpdateWord(slot, isCmd11);
      && Get(w, UpdateClkReg) && (Get(w, VoltSwitch) <==> isCmd11)
      && !Get(w, DataExpected) && !Get(w, StartCommand)
  {
    var w0 := WithCardNum({}, slot.Num());
    ShiftsOutside(DataExpected);
    ShiftsOutside(StartCommand);
    ThreeSetters(w0, ClockUpdateSetters(isCmd11));
  }

  lemma ThreeSetters(w0: Word, puts: seq<Put>)
    requires |puts| == 3 && puts[0] == Put(UpdateClkReg, true)
    requires puts[1] == Put(WaitComplete, true) && puts[2].flag == VoltSwitch
    ensures var w := PutAll(w0, puts);
      && Get(w, UpdateClkReg) && (Get(w, VoltSwitch) <==> puts[2].en)
      && (Get(w, DataExpected) <==> Get(w0, DataExpected)) && (Get(w, StartCommand) <==> Get(w0, StartCommand))
  {
    PutAllGet(w0, puts, 0);
    PutAllGet(w0, puts, 2);
    PutAllOther(w0, puts, DataExpected);
    PutAllOther(w0, puts, StartCommand);
  }

  /** The word start_cmd finally writes to the command register. */
  function StartWord(word: Word, slot: Slot): Word {
    With(WithCardNum(With(word, UseHoldReg, true), slot.Num()), StartCommand, true)
  }

  /** Field by field, when a logical command asks for a one-bit field. */
  predicate Asks(c: Command, f: Flag) {
    match f
    case ResponseExpect => SCF_RSP_PRESENT in c.flags
    case ResponseLong => SCF_RSP_PRESENT in c.flags && SCF_RSP_136 in c.flags
    case CheckResponseCrc => SCF_RSP_CRC in c.flags
    case DataExpected => c.hasData
    case Rw => c.hasData && SCF_CMD_READ in c.flags
    case SendAutoStop => c.hasData && c.datalen > 0 && c.opcode in {11, 18, 20, 25}
    case WaitComplete => c.opcode !in {0, 11, 12}
    case StopAbortCmd => c.opcode == 12
    case SendInit => c.opcode == 0
    case VoltSwitch => c.opcode == 11
    case _ => false
  }

  function AskedFields(c: Command): Fields
    requires c.opcode <= 0x3F
  {
    Fields(c.opcode, 0, set f: Flag | Asks(c, f))
  }

  lemma EmptyWord()
    ensures Decode({}) == Fields(0, 0, {})
  {
    NumberAtEmpty(0, 6);
    NumberAtEmpty(16, 5);
  }

  lemma {:induction false} NumberAtEmpty(lo: nat, n: nat)
    requires lo + n <= 32
    ensures NumberAt({}, lo, n) == 0
    decreases n
  {
    if n > 0 {
      NumberAtEmpty(lo + 1, n - 1);
    }
  }

  /** The chain names ten fields, each once, with the value the command asks for. */
  lemma SettersTable(c: Command, i: nat, j: nat)
    requires i < |Setters(c)| && j < |Setters(c)|
    ensures Setters(c)[i].en <==> Asks(c, Setters(c)[i].flag)
    ensures i != j ==> Setters(c)[i].flag != Setters(c)[j].flag
  {}

  lemma SettersComplete(c: Command, g: Flag)
    requires Asks(c, g)
    ensures exists i :: 0 <= i < |Setters(c)| && Setters(c)[i].flag == g
  {
    var s := Setters(c);
    assert s[0].flag == StopAbortCmd && s[1].flag == SendInit && s[2].flag == VoltSwitch && s[3].flag == WaitComplete;
    assert s[4].flag == ResponseExpect && s[5].flag == ResponseLong && s[6].flag == CheckResponseCrc;
    assert s[7].flag == DataExpected && s[8].flag == Rw && s[9].flag == SendAutoStop;
  }

  /** One field of the translated word: set exactly if the logical command asks for it. */
  lemma MakeHwCmdGets(c: Command, g: Flag)
    requires WholeBlocks(c)
    ensures Get(MakeHwCmd(c).value, g) <==> Asks(c, g)
  {
    var w0, puts := WithCmdIndex({}, c.opcode), Setters(c);
    if i :| 0 <= i < |puts| && puts[i].flag == g {
      forall j | i < j < |puts| ensures puts[j].flag != puts[i].flag {
        SettersTable(c, i, j);
      }
      SettersTable(c, i, i);
      PutAllGet(w0, puts, i);
    } else {
      if Asks(c, g) {
        SettersComplete(c, g);
      }
      ShiftsOutside(g);
      PutAllOther(w0, puts, g);
    }
  }

  lemma MakeHwCmdNumbers(c: Command)
    requires c.opcode <= 0x3F && WholeBlocks(c)
    ensures CmdIndexOf(MakeHwCmd(c).value) == c.opcode && CardNumOf(MakeHwCmd(c).value) == 0
  {
    EmptyWord();
    WithCmdIndexSets({}, c.opcode);
    PutAllNumbers(WithCmdIndex({}, c.opcode), Setters(c));
  }

  /** The translated word decodes to exactly the fields the logical command asks for. */
  lemma MakeHwCmdDecodes(c: Command)
    requires c.opcode <= 0x3F && WholeBlocks(c)
    ensures Decode(MakeHwCmd(c).value) == AskedFields(c)
  {
    MakeHwCmdNumbers(c);
    forall g: Flag ensures Get(MakeHwCmd(c).value, g) <==> Asks(c, g) {
      MakeHwCmdGets(c, g);
    }
  }

  /** What start_cmd adds: the hold register, the slot and the start bit. */
  lemma StartWordDecodes(word: Word, slot: Slot)
    ensures Decode(StartWord(word, slot)) ==
      Decode(word).(cardNum := slot.Num(), flags := Decode(word).flags + {UseHoldReg, StartCommand})
  {
    var w1 := With(word, UseHoldReg, true);
    WithSets(word, UseHoldReg, true);
    WithCardNumSets(w1, slot.Num());
    WithSets(WithCardNum(w1, slot.Num()), StartCommand, true);
  }

  lemma StartWordGets(word: Word, slot: Slot, g: Flag)
    ensures Get(StartWord(word, slot), g) <==> g == UseHoldReg || g == StartCommand || Get(word, g)
  {
    StartWordDecodes(word, slot);
    assert Get(StartWord(word, slot), g) <==> g in Decode(StartWord(word, slot)).flags;
  }

  /** The word on the bus: what was asked, addressed to the slot, with everything else clear. */
  lemma WrittenWord(c: Command, slot: Slot)
    requires c.opcode <= 0x3F && WholeBlocks(c)
    ensures Decode(StartWord(MakeHwCmd(c).value, slot)) ==
      Fields(c.opcode, slot.Num(), (set f: Flag | Asks(c, f)) + {UseHoldReg, StartCommand})
  {
    MakeHwCmdDecodes(c);
    StartWordDecodes(MakeHwCmd(c).value, slot);
  }

  lemma UpdateFields(slot: Slot, isCmd11: bool, g: Flag)
    ensures Get(ClockUpdateWord(slot, isCmd11), g)
       <==> g in {UpdateClkReg, WaitComplete} || (isCmd11 && g == VoltSwitch)
  {
    var w0, puts := WithCardNum({}, slot.Num()), ClockUpdateSetters(isCmd11);
    if g == UpdateClkReg {
      PutAllGet(w0, puts, 0);
    } else if g == WaitComplete {
      PutAllGet(w0, puts, 1);
    } else if g == VoltSwitch {
      PutAllGet(w0, puts, 2);
    } else {
      PutAllOther(w0, puts, g);
      ShiftsOutside(g);
    }
  }

  lemma UpdateNumbers(slot: Slot, isCmd11: bool)
    ensures CmdIndexOf(ClockUpdateWord(slot, isCmd11)) == 0
    ensures CardNumOf(ClockUpdateWord(slot, isCmd11)) == slot.Num()
  {
    EmptyWord();
    WithCardNumSets({}, slot.Num());
    PutAllNumbers(WithCardNum({}, slot.Num()), ClockUpdateSetters(isCmd11));
  }

  /** The word of a clock update on the bus: no opcode, and only these fields. */
  lemma UpdateWord(slot: Slot, isCmd11: bool)
    ensures Decode(StartWord(ClockUpdateWord(slot, isCmd11), slot)) ==
      Fields(0, slot.Num(),
             {UpdateClkReg, WaitComplete, UseHoldReg, StartCommand} + if isCmd11 then {VoltSwitch} else {})
  {
    var w := ClockUpdateWord(slot, isCmd11);
    UpdateNumbers(slot, isCmd11);
    StartWordDecodes(w, slot);
    forall g: Flag
      ensures g in Decode(w).flags <==> g in {UpdateClkReg, WaitComplete} + if isCmd11 then {VoltSwitch} else {}
    {
      UpdateFields(slot, isCmd11, g);
    }
  }
}
