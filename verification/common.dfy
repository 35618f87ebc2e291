/** Error codes, interrupt masks, flags and opcodes of the driver (src/common.rs, src/lib.rs). */
module Common {

  datatype Option<+T> = None | Some(value: T)

  datatype Error =
    | InvalidArg
    | Timeout
    | NotFound
    | InvalidCRC
    | InvalidResponse
    | InvalidSize
    | Fail
    | NotSupported
    | InvalidState

  datatype Outcome = Ok | Err(error: Error)

  datatype Slot = Slot0 | Slot1 {
    function Num(): nat { if Slot0? then 0 else 1 }
  }

  type U8 = i: int | 0 <= i < 0x100
  type U32 = i: int | 0 <= i < 0x1_0000_0000
  const U32_MAX: U32 := 0xFFFF_FFFF

  /** A bit position of a 32-bit word. */
  type Bit = b: int | 0 <= b < 32

  /**
   * A 32-bit status, mask or flag word, given by the positions of its set bits:
   * bitwise or is `+`, bitwise and is `*`, and-not is `-`.
   */
  type Word = set<Bit>

  // Controller interrupt bits.
  const INT_EBE: Bit := 15
  const INT_SBE: Bit := 13
  const INT_HTO: Bit := 10
  const INT_VOLT_SW: Bit := INT_HTO
  const INT_DTO: Bit := 9
  const INT_RTO: Bit := 8
  const INT_DCRC: Bit := 7
  const INT_RCRC: Bit := 6
  const INT_DATA_OVER: Bit := 3
  const INT_CMD_DONE: Bit := 2
  const INT_RESP_ERR: Bit := 1

  // DMA interrupt bits.
  const DMA_NI: Bit := 8
  const DMA_RI: Bit := 1
  const DMA_TI: Bit := 0

  const DATA_ERR_MASK: Word := {INT_DTO, INT_DCRC, INT_HTO, INT_SBE, INT_EBE}
  const DMA_DONE_MASK: Word := {DMA_RI, DMA_TI, DMA_NI}
  const CMD_ERR_MASK: Word := {INT_RTO, INT_RCRC, INT_RESP_ERR}

  // Opcodes the driver distinguishes.
  const MMC_GO_IDLE_STATE: U8 := 0
  const MMC_SEND_OP_COND: U8 := 1
  const MMC_READ_DAT_UNTIL_STOP: U8 := 11
  const SD_SWITCH_VOLTAGE: U8 := 11
  const MMC_STOP_TRANSMISSION: U8 := 12
  const MMC_READ_BLOCK_SINGLE: U8 := 17
  const MMC_READ_BLOCK_MULTIPLE: U8 := 18
  const MMC_WRITE_DAT_UNTIL_STOP: U8 := 20
  const MMC_WRITE_BLOCK_MULTIPLE: U8 := 25
  const SD_APP_OP_COND: U8 := 41
  const MMC_APP_CMD: U8 := 55
  const SD_READ_OCR: U8 := 58

  // Command flags.
  const SCF_CMD_ADTC: Bit := 4
  const SCF_CMD_READ: Bit := 6
  const SCF_RSP_136: Bit := 9
  const SCF_RSP_CRC: Bit := 10
  const SCF_RSP_IDX: Bit := 11
  const SCF_RSP_PRESENT: Bit := 12
  const SCF_RSP_R1: Word := {SCF_RSP_PRESENT, SCF_RSP_CRC, SCF_RSP_IDX}
  const SCF_RSP_R2: Word := {SCF_RSP_PRESENT, SCF_RSP_CRC, SCF_RSP_136}
  const SCF_RSP_R3: Word := {SCF_RSP_PRESENT}
  const SCF_WAIT_BUSY: Bit := 13

  // Response and operating-condition register bits.
  const MMC_R1_APP_CMD: Bit := 5
  const MMC_OCR_MEM_READY: Bit := 31

  /** Some bit of `mask` is set in `word`: the answer of mask_check_and_clear. */
  predicate Has(word: Word, mask: Word) { !(word !! mask) }

  /** One interrupt report: the controller word and the DMA word read by the handler. */
  datatype Event = Event(sdmmc: Word, dma: Word)

  const NO_EVENT: Event := Event({}, {})

  function Merge(a: Event, b: Event): Event { Event(a.sdmmc + b.sdmmc, a.dma + b.dma) }

  predicate Within(a: Event, b: Event) { a.sdmmc <= b.sdmmc && a.dma <= b.dma }

  /** The OR of a whole history of events. */
  function OrAll(es: seq<Event>): Event {
    if es == [] then NO_EVENT else Merge(OrAll(es[..|es| - 1]), es[|es| - 1])
  }

  lemma MergeAssoc(a: Event, b: Event, c: Event)
    ensures Merge(Merge(a, b), c) == Merge(a, Merge(b, c))
  {
    assert (a.sdmmc + b.sdmmc) + c.sdmmc == a.sdmmc + (b.sdmmc + c.sdmmc);
    assert (a.dma + b.dma) + c.dma == a.dma + (b.dma + c.dma);
  }

  lemma OrAllSnoc(es: seq<Event>, e: Event)
    ensures OrAll(es + [e]) == Merge(OrAll(es), e)
  {
    assert (es + [e])[..|es|] == es;
  }

  lemma OneEvent(e: Event)
    ensures OrAll([e]) == e
  {
    assert [e][..0] == [];
    assert OrAll([e][..0]) == NO_EVENT;
  }

  lemma {:induction false} OrAllConcat(a: seq<Event>, b: seq<Event>)
    ensures OrAll(a + b) == Merge(OrAll(a), OrAll(b))
  {
    if b == [] {
      assert a + b == a;
    } else {
      var b', e := b[..|b| - 1], b[|b| - 1];
      OrAllConcat(a, b');
      MergeAssoc(OrAll(a), OrAll(b'), e);
      OrAllSnoc(a + b', e);
      assert a + b == (a + b') + [e];
    }
  }

  lemma OrAllPrefix(es: seq<Event>, i: nat)
    requires i <= |es|
    ensures Within(OrAll(es[..i]), OrAll(es))
  {
    OrAllConcat(es[..i], es[i..]);
    assert es == es[..i] + es[i..];
  }

  function Pow2(n: nat): (p: nat)
    ensures p > 0
  {
    if n == 0 then 1 else 2 * Pow2(n - 1)
  }
}
