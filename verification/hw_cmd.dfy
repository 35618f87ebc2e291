/**
 * The 32-bit command word of the controller (src/hw_cmd.rs). The one-bit fields share one getter
 * and one setter, indexed by the field.
 */
module HwCmd {
  import opened Common

  /** The one-bit fields of a command word. */
  datatype Flag =
    | ResponseExpect
    | ResponseLong
    | CheckResponseCrc
    | DataExpected
    | Rw
    | StreamMode
    | SendAutoStop
    | WaitComplete
    | StopAbortCmd
    | SendInit
    | UpdateClkReg
    | ReadCeata
    | CcsExpected
    | EnableBoot
    | ExpectBootAck
    | DisableBoot
    | BootMode
    | VoltSwitch
    | UseHoldReg
    | ReservedBit
    | StartCommand

  /** The bit position of a one-bit field. */
  function Shift(f: Flag): Bit {
    match f
    case ResponseExpect => 6
    case ResponseLong => 7
    case CheckResponseCrc => 8
    case DataExpected => 9
    case Rw => 10
    case StreamMode => 11
    case SendAutoStop => 12
    case WaitComplete => 13
    case StopAbortCmd => 14
    case SendInit => 15
    case UpdateClkReg => 21
    case ReadCeata => 22
    case CcsExpected => 23
    case EnableBoot => 24
    case ExpectBootAck => 25
    case DisableBoot => 26
    case BootMode => 27
    case VoltSwitch => 28
    case UseHoldReg => 29
    case ReservedBit => 30
    case StartCommand => 31
  }

  const CMD_INDEX_SHIFT: nat := 0
  const CMD_INDEX_WIDTH: nat := 6
  const CARD_NUM_SHIFT: nat := 16
  const CARD_NUM_WIDTH: nat := 5

  // ---- numbers inside words ----

  /** The mask of the `n` bits from `lo` on. */
  function Range(lo: nat, n: nat): (r: Word)
    requires lo + n <= 32
    ensures forall b: Bit :: b in r <==> lo <= b < lo + n
    decreases n
  {
    if n == 0 then {} else {lo} + Range(lo + 1, n - 1)
  }

  /** The number written in the `n` bits from `lo` on, least significant bit first. */
  function NumberAt(word: Word, lo: nat, n: nat): (v: nat)
    requires lo + n <= 32
    ensures v < Pow2(n)
    decreases n
  {
    if n == 0 then 0 else (if lo in word then 1 else 0) + 2 * NumberAt(word, lo + 1, n - 1)
  }

  /** The low `n` bits of `v`, placed from `lo` on. */
  function BitsAt(v: nat, lo: nat, n: nat): (w: Word)
    requires lo + n <= 32
    ensures w <= Range(lo, n)
    decreases n
  {
    if n == 0 then {} else (if v % 2 == 1 then {lo} else {}) + BitsAt(v / 2, lo + 1, n - 1)
  }

  lemma {:induction false} NumberOfBits(v: nat, rest: Word, lo: nat, n: nat)
    requires lo + n <= 32 && v < Pow2(n) && rest !! Range(lo, n)
    ensures NumberAt(rest + BitsAt(v, lo, n), lo, n) == v
    decreases n
  {
    if n > 0 {
      var rest' := rest + if v % 2 == 1 then {lo} else {};
      NumberOfBits(v / 2, rest', lo + 1, n - 1);
      assert rest + BitsAt(v, lo, n) == rest' + BitsAt(v / 2, lo + 1, n - 1);
      assert lo in Range(lo, n);
      assert lo !in Range(lo + 1, n - 1);
    }
  }

  lemma {:induction false} BitsOfNumber(word: Word, lo: nat, n: nat)
    requires lo + n <= 32
    ensures BitsAt(NumberAt(word, lo, n), lo, n) == word * Range(lo, n)
    decreases n
  {
    if n > 0 {
      BitsOfNumber(word, lo + 1, n - 1);
      assert Range(lo, n) == {lo} + Range(lo + 1, n - 1);
    }
  }

  lemma {:induction false} NumberElsewhere(w: Word, w': Word, lo: nat, n: nat)
    requires lo + n <= 32 && w * Range(lo, n) == w' * Range(lo, n)
    ensures NumberAt(w, lo, n) == NumberAt(w', lo, n)
    decreases n
  {
    if n > 0 {
      assert lo in Range(lo, n);
      assert lo in w <==> lo in w * Range(lo, n);
      assert lo in w' <==> lo in w' * Range(lo, n);
      assert Range(lo + 1, n - 1) <= Range(lo, n);
      assert w * Range(lo + 1, n - 1) == (w * Range(lo, n)) * Range(lo + 1, n - 1);
      assert w' * Range(lo + 1, n - 1) == (w' * Range(lo, n)) * Range(lo + 1, n - 1);
      NumberElsewhere(w, w', lo + 1, n - 1);
    }
  }

  // ---- getters ----

  predicate Get(word: Word, f: Flag) { Shift(f) in word }

  function CmdIndexOf(word: Word): nat { NumberAt(word, CMD_INDEX_SHIFT, CMD_INDEX_WIDTH) }

  function CardNumOf(word: Word): nat { NumberAt(word, CARD_NUM_SHIFT, CARD_NUM_WIDTH) }

  /** What a command word says: its two numbers and the one-bit fields that are set. */
  datatype Fields = Fields(cmdIndex: nat, cardNum: nat, flags: set<Flag>)

  function Decode(word: Word): Fields {
    Fields(CmdIndexOf(word), CardNumOf(word), set f: Flag | Get(word, f))
  }

  // ---- setters ----

  function With(word: Word, f: Flag, en: bool): Word {
    if en then word + {Shift(f)} else word - {Shift(f)}
  }

  function WithCmdIndex(word: Word, i: nat): Word {
    (word - Range(CMD_INDEX_SHIFT, CMD_INDEX_WIDTH)) + BitsAt(i, CMD_INDEX_SHIFT, CMD_INDEX_WIDTH)
  }

  function WithCardNum(word: Word, i: nat): Word {
    (word - Range(CARD_NUM_SHIFT, CARD_NUM_WIDTH)) + BitsAt(i, CARD_NUM_SHIFT, CARD_NUM_WIDTH)
  }

  lemma ShiftInjective(f: Flag, g: Flag)
    requires Shift(f) == Shift(g)
    ensures f == g
  {}

  lemma ShiftsOutside(f: Flag)
    ensures Shift(f) !in Range(CMD_INDEX_SHIFT, CMD_INDEX_WIDTH)
    ensures Shift(f) !in Range(CARD_NUM_SHIFT, CARD_NUM_WIDTH)
  {}

  lemma WithNumbers(word: Word, f: Flag, en: bool)
    ensures CmdIndexOf(With(word, f, en)) == CmdIndexOf(word)
    ensures CardNumOf(With(word, f, en)) == CardNumOf(word)
  {
    var r := With(word, f, en);
    ShiftsOutside(f);
    NumberElsewhere(word, r, CMD_INDEX_SHIFT, CMD_INDEX_WIDTH);
    NumberElsewhere(word, r, CARD_NUM_SHIFT, CARD_NUM_WIDTH);
  }

  lemma WithGet(word: Word, f: Flag, en: bool, g: Flag)
    ensures Get(With(word, f, en), g) <==> if f == g then en else Get(word, g)
  {
    if Shift(f) == Shift(g) {
      ShiftInjective(f, g);
    }
  }

  /** One setter call of a builder chain. */
  datatype Put = Put(flag: Flag, en: bool)

  /** A builder chain: the setter calls in order. */
  function PutAll(word: Word, puts: seq<Put>): Word
    decreases |puts|
  {
    if puts == [] then word
    else PutAll(With(word, puts[0].flag, puts[0].en), puts[1..])
  }

  lemma {:induction false} PutAllNumbers(word: Word, puts: seq<Put>)
    ensures CmdIndexOf(PutAll(word, puts)) == CmdIndexOf(word)
    ensures CardNumOf(PutAll(word, puts)) == CardNumOf(word)
    decreases |puts|
  {
    if puts != [] {
      WithNumbers(word, puts[0].flag, puts[0].en);
      PutAllNumbers(With(word, puts[0].flag, puts[0].en), puts[1..]);
    }
  }

  /** A chain leaves a field that it does not name. */
  lemma {:induction false} PutAllOther(word: Word, puts: seq<Put>, g: Flag)
    requires forall i :: 0 <= i < |puts| ==> puts[i].flag != g
    ensures Get(PutAll(word, puts), g) <==> Get(word, g)
    decreases |puts|
  {
    if puts != [] {
      WithGet(word, puts[0].flag, puts[0].en, g);
      PutAllOther(With(word, puts[0].flag, puts[0].en), puts[1..], g);
    }
  }

  /** The last call that names a field decides it. */
  lemma {:induction false} PutAllGet(word: Word, puts: seq<Put>, i: nat)
    requires i < |puts|
    requires forall j :: i < j < |puts| ==> puts[j].flag != puts[i].flag
    ensures Get(PutAll(word, puts), puts[i].flag) <==> puts[i].en
    decreases |puts|
  {
    var word' := With(word, puts[0].flag, puts[0].en);
    if i == 0 {
      WithGet(word, puts[0].flag, puts[0].en, puts[0].flag);
      PutAllOther(word', puts[1..], puts[0].flag);
    } else {
      PutAllGet(word', puts[1..], i - 1);
    }
  }

  /** A one-bit setter changes its own field and nothing else, and the field reads back as set. */
  lemma WithSets(word: Word, f: Flag, en: bool)
    ensures var d := Decode(word);
      Decode(With(word, f, en)) == d.(flags := if en then d.flags + {f} else d.flags - {f})
  {
    WithNumbers(word, f, en);
    forall g: Flag ensures Get(With(word, f, en), g) <==> if f == g then en else Get(word, g) {
      WithGet(word, f, en, g);
    }
  }

  lemma WithCmdIndexSets(word: Word, i: nat)
    requires i <= 0x3F
    ensures Decode(WithCmdIndex(word, i)) == Decode(word).(cmdIndex := i)
  {
    var r := WithCmdIndex(word, i);
    var rest := word - Range(CMD_INDEX_SHIFT, CMD_INDEX_WIDTH);
    assert Pow2(6) == 64 by { assert Pow2(3) == 8; }
    NumberOfBits(i, rest, CMD_INDEX_SHIFT, CMD_INDEX_WIDTH);
    NumberElsewhere(word, r, CARD_NUM_SHIFT, CARD_NUM_WIDTH);
    forall g: Flag ensures Get(r, g) <==> Get(word, g) {
      ShiftsOutside(g);
    }
  }

  lemma WithCardNumSets(word: Word, i: nat)
    requires i <= 0x1F
    ensures Decode(WithCardNum(word, i)) == Decode(word).(cardNum := i)
  {
    var r := WithCardNum(word, i);
    var rest := word - Range(CARD_NUM_SHIFT, CARD_NUM_WIDTH);
    assert Pow2(5) == 32 by { assert Pow2(3) == 8; }
    NumberOfBits(i, rest, CARD_NUM_SHIFT, CARD_NUM_WIDTH);
    NumberElsewhere(word, r, CMD_INDEX_SHIFT, CMD_INDEX_WIDTH);
    forall g: Flag ensures Get(r, g) <==> Get(word, g) {
      ShiftsOutside(g);
    }
  }

  // ---- words and field records are in bijection ----

  function FlagBits(flags: set<Flag>): Word { set f | f in flags :: Shift(f) }

  function Encode(d: Fields): Word {
    BitsAt(d.cmdIndex, CMD_INDEX_SHIFT, CMD_INDEX_WIDTH)
    + BitsAt(d.cardNum, CARD_NUM_SHIFT, CARD_NUM_WIDTH)
    + FlagBits(d.flags)
  }

  lemma DecodeEncode(d: Fields)
    requires d.cmdIndex <= 0x3F && d.cardNum <= 0x1F
    ensures Decode(Encode(d)) == d
  {
    var w := Encode(d);
    var w0 := FlagBits(d.flags);
    forall f | f in d.flags ensures Shift(f) !in Range(0, 6) && Shift(f) !in Range(16, 5) {
      ShiftsOutside(f);
    }
    var a, b := BitsAt(d.cmdIndex, 0, 6), BitsAt(d.cardNum, 16, 5);
    assert Pow2(6) == 64 && Pow2(5) == 32 by { assert Pow2(3) == 8; }
    NumberOfBits(d.cmdIndex, w0 + b, 0, 6);
    NumberOfBits(d.cardNum, w0 + a, 16, 5);
    assert w == (w0 + b) + a == (w0 + a) + b;
    forall f: Flag ensures Get(w, f) <==> f in d.flags {
      ShiftsOutside(f);
      if Get(w, f) {
        var g :| g in d.flags && Shift(g) == Shift(f);
        ShiftInjective(f, g);
      }
    }
  }

  /** The one-bit field at a position outside the numbers: every bit of a word is in some field. */
  function FlagAt(b: Bit): (f: Flag)
    requires 6 <= b < 16 || 21 <= b
    ensures Shift(f) == b
  {
    if b == 6 then ResponseExpect
    else if b == 7 then ResponseLong
    else if b == 8 then CheckResponseCrc
    else if b == 9 then DataExpected
    else if b == 10 then Rw
    else if b == 11 then StreamMode
    else if b == 12 then SendAutoStop
    else if b == 13 then WaitComplete
    else if b == 14 then StopAbortCmd
    else if b == 15 then SendInit
    else if b == 21 then UpdateClkReg
    else if b == 22 then ReadCeata
    else if b == 23 then CcsExpected
    else if b == 24 then EnableBoot
    else if b == 25 then ExpectBootAck
    else if b == 26 then DisableBoot
    else if b == 27 then BootMode
    else if b == 28 then VoltSwitch
    else if b == 29 then UseHoldReg
    else if b == 30 then ReservedBit
    else StartCommand
  }

  lemma EncodeDecode(word: Word)
    ensures Encode(Decode(word)) == word
  {
    BitsOfNumber(word, 0, 6);
    BitsOfNumber(word, 16, 5);
    var fs := FlagBits(Decode(word).flags);
    forall b: Bit ensures b in word <==> b in word * Range(0, 6) || b in word * Range(16, 5) || b in fs {
      if b in word && b !in Range(0, 6) && b !in Range(16, 5) {
        assert FlagAt(b) in Decode(word).flags;
      }
    }
  }

  /** A word is determined by its fields. */
  lemma SameWord(a: Word, b: Word)
    requires Decode(a) == Decode(b)
    ensures a == b
  {
    EncodeDecode(a);
    EncodeDecode(b);
  }

  lemma ThreeBits(w: Word, lo: nat, n: nat)
    requires lo + n + 3 <= 32
    ensures NumberAt(w, lo, n + 3) ==
      (if lo in w then 1 else 0) + (if lo + 1 in w then 2 else 0) + (if lo + 2 in w then 4 else 0)
      + 8 * NumberAt(w, lo + 3, n)
  {
    assert NumberAt(w, lo, n + 3) == (if lo in w then 1 else 0) + 2 * NumberAt(w, lo + 1, n + 2);
    assert NumberAt(w, lo + 1, n + 2) == (if lo + 1 in w then 1 else 0) + 2 * NumberAt(w, lo + 2, n + 1);
    assert NumberAt(w, lo + 2, n + 1) == (if lo + 2 in w then 1 else 0) + 2 * NumberAt(w, lo + 3, n);
  }

  lemma IndexLayout(w: Word)
    ensures CmdIndexOf(w) ==
      (if 0 in w then 1 else 0) + (if 1 in w then 2 else 0) + (if 2 in w then 4 else 0)
      + (if 3 in w then 8 else 0) + (if 4 in w then 16 else 0) + (if 5 in w then 32 else 0)
  {
    ThreeBits(w, 0, 3);
    ThreeBits(w, 3, 0);
  }

  lemma CardLayout(w: Word)
    ensures CardNumOf(w) ==
      (if 16 in w then 1 else 0) + (if 17 in w then 2 else 0) + (if 18 in w then 4 else 0)
      + (if 19 in w then 8 else 0) + (if 20 in w then 16 else 0)
  {
    ThreeBits(w, 16, 2);
    assert NumberAt(w, 19, 2) == (if 19 in w then 1 else 0) + 2 * NumberAt(w, 20, 1);
    assert NumberAt(w, 20, 1) == if 20 in w then 1 else 0;
  }

  /** The layout of the one-bit fields in the register. */
  lemma FlagLayout(w: Word)
    ensures (Get(w, ResponseExpect) <==> 6 in w) && (Get(w, ResponseLong) <==> 7 in w)
    ensures (Get(w, CheckResponseCrc) <==> 8 in w) && (Get(w, DataExpected) <==> 9 in w)
    ensures (Get(w, Rw) <==> 10 in w) && (Get(w, StreamMode) <==> 11 in w)
    ensures (Get(w, SendAutoStop) <==> 12 in w) && (Get(w, WaitComplete) <==> 13 in w)
    ensures (Get(w, StopAbortCmd) <==> 14 in w) && (Get(w, SendInit) <==> 15 in w)
    ensures (Get(w, UpdateClkReg) <==> 21 in w) && (Get(w, ReadCeata) <==> 22 in w)
    ensures (Get(w, CcsExpected) <==> 23 in w) && (Get(w, EnableBoot) <==> 24 in w)
    ensures (Get(w, ExpectBootAck) <==> 25 in w) && (Get(w, DisableBoot) <==> 26 in w)
    ensures (Get(w, BootMode) <==> 27 in w) && (Get(w, VoltSwitch) <==> 28 in w)
    ensures (Get(w, UseHoldReg) <==> 29 in w) && (Get(w, ReservedBit) <==> 30 in w)
    ensures Get(w, StartCommand) <==> 31 in w
  {}
}
