/**
 * What one transaction does with the interrupt events it receives, as functions on values
 * (process_events and its helpers in src/sdmmc_sd.rs). The class SdmmcCard runs the same
 * machine in place and is proved against these functions.
 */
module Transaction {
  import opened Common
  import opened Cmd

  datatype State =
    | Unset
    | Idle
    | SendingCmd
    | SendingData
    | Busy
    | SendingVoltageSwitch
    | WaitingVoltageSwitch

  /** The four response registers. */
  datatype Response = Response(r0: Word, r1: Word, r2: Word, r3: Word)

  /** An event together with what the response registers hold while it is processed. */
  datatype Arrival = Arrival(event: Event, regs: Response)

  /**
   * A transaction between or within event calls. `pending` is the working copy of the event
   * inside a call and the `unhandled` event between calls; `halted` records that the
   * unimplemented second stage of a voltage switch was entered.
   */
  datatype Txn = Txn(
    state: State,
    pending: Event,
    err: Option<Error>,
    response: Response,
    dmaOn: bool,
    halted: bool)

  const NO_RESPONSE: Response := Response({}, {}, {}, {})

  function ClearSdmmc(t: Txn, mask: Word): Txn {
    t.(pending := Event(t.pending.sdmmc - mask, t.pending.dma))
  }

  function ClearDma(t: Txn, mask: Word): Txn {
    t.(pending := Event(t.pending.sdmmc, t.pending.dma - mask))
  }

  /** A command error that counts for `c` is reported in `status`; a CRC error counts only where a CRC is checked. */
  predicate Qualifies(c: Command, status: Word) {
    || INT_RTO in status
    || (INT_RCRC in status && SCF_RSP_CRC in c.flags)
    || INT_RESP_ERR in status
  }

  /** The error a status word reports for a command, if any. */
  function CommandError(c: Command, status: Word): (e: Option<Error>)
    ensures e.Some? <==> Qualifies(c, status)
  {
    if INT_RTO in status then Some(Timeout)
    else if SCF_RSP_CRC in c.flags && INT_RCRC in status then Some(InvalidCRC)
    else if INT_RESP_ERR in status then Some(InvalidResponse)
    else None
  }

  function CommandResponse(c: Command, regs: Response, status: Word, t: Txn): (t': Txn)
    ensures t'.pending == t.pending && t'.state == t.state && t'.halted == t.halted
    ensures t'.err.Some? <==> t.err.Some? || Qualifies(c, status)
    ensures c.hasData && (t.dmaOn <==> t.err.None?) ==> (t'.dmaOn <==> t'.err.None?)
    ensures SCF_RSP_PRESENT !in c.flags ==> t'.response == t.response
  {
    var t1 :=
      if SCF_RSP_PRESENT !in c.flags then t
      else if SCF_RSP_136 in c.flags then t.(response := regs)
      else t.(response := Response(regs.r0, {}, {}, {}));
    var e := CommandError(c, status);
    if e.None? then t1
    else t1.(err := e, dmaOn := t1.dmaOn && !c.hasData)
  }

  function DataError(c: Command, status: Word): (e: Option<Error>)
    ensures e.Some? <==> Has(status, DATA_ERR_MASK)
  {
    if !Has(status, DATA_ERR_MASK) then None
    else if INT_DTO in status then Some(Timeout)
    else if INT_DCRC in status then Some(InvalidCRC)
    else if INT_EBE in status && SCF_CMD_READ !in c.flags then Some(Timeout)
    else Some(Fail)
  }

  function DataStatus(c: Command, status: Word, t: Txn): (t': Txn)
    ensures t'.pending == t.pending && t'.state == t.state && t'.halted == t.halted
    ensures t'.response == t.response
    ensures t'.err.Some? <==> t.err.Some? || Has(status, DATA_ERR_MASK)
    ensures c.hasData && (t.dmaOn <==> t.err.None?) ==> (t'.dmaOn <==> t'.err.None?)
  {
    var e := DataError(c, status);
    var t1 := if e.None? then t else t.(err := e);
    if t1.err.Some? && c.hasData then t1.(dmaOn := false) else t1
  }

  /** How far a state is from the end of the transaction. */
  function Rank(s: State): nat {
    match s
    case Unset => 4
    case SendingCmd => 3
    case SendingData => 2
    case SendingVoltageSwitch => 2
    case Busy => 1
    case WaitingVoltageSwitch => 1
    case Idle => 0
  }

  /** One turn of the loop in process_events; `orig` is the merged word the call started with. */
  function Visit(c: Command, regs: Response, orig: Word, t: Txn): (t': Txn)
    ensures t'.state == t.state || Rank(t'.state) < Rank(t.state)
  {
    match t.state
    case Unset => t
    case Idle => t
    case SendingCmd =>
      var t1 :=
        if Has(t.pending.sdmmc, CMD_ERR_MASK)
        then CommandResponse(c, regs, orig, ClearSdmmc(t, CMD_ERR_MASK)) else t;
      if INT_CMD_DONE in t1.pending.sdmmc then
        var t2 := CommandResponse(c, regs, orig, ClearSdmmc(t1, {INT_CMD_DONE}));
        t2.(state := if t2.err.Some? || !c.hasData then Idle else SendingData)
      else t1
    case SendingData =>
      var t1 :=
        if Has(t.pending.sdmmc, DATA_ERR_MASK)
        then DataStatus(c, orig, ClearSdmmc(t, DATA_ERR_MASK)).(dmaOn := false) else t;
      var t2 :=
        if Has(t1.pending.dma, DMA_DONE_MASK)
        then ClearDma(t1, DMA_DONE_MASK).(state := Busy) else t1;
      if Has(orig, {INT_SBE, INT_DATA_OVER}) then t2.(state := Idle) else t2
    case Busy =>
      if INT_DATA_OVER in t.pending.sdmmc
      then DataStatus(c, orig, ClearSdmmc(t, {INT_DATA_OVER})).(state := Idle) else t
    case SendingVoltageSwitch =>
      var t1 :=
        if Has(t.pending.sdmmc, CMD_ERR_MASK)
        then CommandResponse(c, regs, orig, ClearSdmmc(t, CMD_ERR_MASK)).(state := Idle) else t;
      if INT_VOLT_SW in t1.pending.sdmmc
      then ClearSdmmc(t1, {INT_VOLT_SW}).(halted := true) else t1
    case WaitingVoltageSwitch =>
      var t1 :=
        if Has(t.pending.sdmmc, CMD_ERR_MASK)
        then CommandResponse(c, regs, orig, ClearSdmmc(t, CMD_ERR_MASK)).(state := Idle) else t;
      if INT_VOLT_SW in t1.pending.sdmmc
      then ClearSdmmc(t1, {INT_VOLT_SW}).(state := Idle) else t1
  }

  /** The whole loop: visit states until one does not move on. */
  function Settle(c: Command, regs: Response, orig: Word, t: Txn): Txn
    decreases Rank(t.state)
  {
    var t' := Visit(c, regs, orig, t);
    if t'.halted || t'.state == t.state then t' else Settle(c, regs, orig, t')
  }

  /** One call of handle_event with an event: merge what was left over, then settle. */
  function Deliver(c: Command, t: Txn, a: Arrival): Txn {
    var merged := Merge(a.event, t.pending);
    Settle(c, a.regs, merged.sdmmc, t.(pending := merged))
  }

  function Start(c: Command, response: Response, dmaOn: bool): Txn {
    Txn(if c.opcode == SD_SWITCH_VOLTAGE then SendingVoltageSwitch else SendingCmd,
        NO_EVENT, None, response, dmaOn, false)
  }

  /** A transaction listens until it is Idle; later events are not its own. */
  predicate Listening(t: Txn) { t.state != Idle && !t.halted }

  /** The transaction after a history of arrivals. */
  function Run(c: Command, t0: Txn, hist: seq<Arrival>): Txn {
    if hist == [] then t0
    else
      var t := Run(c, t0, hist[..|hist| - 1]);
      if Listening(t) then Deliver(c, t, hist[|hist| - 1]) else t
  }

  /** The events of a history. */
  function Events(hist: seq<Arrival>): (es: seq<Event>)
    ensures |es| == |hist|
  {
    seq(|hist|, i requires 0 <= i < |hist| => hist[i].event)
  }
}
