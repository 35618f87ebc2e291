/**
 * Which error a transaction reports. Like the verdict, it is told from the event history: from
 * the events as they came and from ORs of stretches of the history.
 */
module ErrorKind {
  import opened Common
  import opened Cmd
  import opened Transaction
  import opened History
  import opened Deferred

  function OrElse(a: Option<Error>, b: Option<Error>): Option<Error> {
    if a.Some? then a else b
  }

  /**
   * The error on record after a history. While the command is on its way the last event with a
   * command error decides. The event that ends the command then brings the data errors of all
   * events so far as one; during the data phase the last event with a data error decides;
   * those of the busy phase count when it ends, again as one.
   */
  function ErrorValue(c: Command, es: seq<Event>): Option<Error> {
    if es == [] then None
    else
      var front, e := es[..|es| - 1], es[|es| - 1].sdmmc;
      var before := ErrorValue(c, front);
      match StateOf(c, front)
      case SendingCmd =>
        var ofCommand := OrElse(CommandError(c, e), before);
        if ofCommand.None? && c.hasData && INT_CMD_DONE in e
        then DataError(c, OrAll(es).sdmmc) else ofCommand
      case SendingData => OrElse(DataError(c, e), before)
      case Busy =>
        if INT_DATA_OVER in e then OrElse(DataError(c, During(c, es, Busy).sdmmc), before) else before
      case _ => before
  }

  /** Only its own error bits decide which command error a word reports. */
  lemma CommandErrorLocal(c: Command, a: Word, b: Word)
    requires a * CMD_ERR_MASK == b * CMD_ERR_MASK
    ensures CommandError(c, a) == CommandError(c, b)
  {
    assert forall i: Bit :: i in CMD_ERR_MASK ==>
      (i in a <==> i in a * CMD_ERR_MASK) && (i in b <==> i in b * CMD_ERR_MASK);
  }

  lemma DataErrorLocal(c: Command, a: Word, b: Word)
    requires a * DATA_ERR_MASK == b * DATA_ERR_MASK
    ensures DataError(c, a) == DataError(c, b)
  {
    assert forall i: Bit :: i in DATA_ERR_MASK ==>
      (i in a <==> i in a * DATA_ERR_MASK) && (i in b <==> i in b * DATA_ERR_MASK);
    assert Has(a, DATA_ERR_MASK) <==> Has(b, DATA_ERR_MASK);
  }

  /** A turn in SendingCmd reports by the bits of the new event alone: older ones were cleared. */
  lemma CommandTurn(c: Command, t: Txn, a: Arrival)
    requires t.state == SendingCmd && t.pending.sdmmc !! CMD_ERR_MASK
    ensures var m := Merge(a.event, t.pending);
      Visit(c, a.regs, m.sdmmc, t.(pending := m)).err == OrElse(CommandError(c, a.event.sdmmc), t.err)
  {
    var m := Merge(a.event, t.pending);
    assert m.sdmmc * CMD_ERR_MASK == a.event.sdmmc * CMD_ERR_MASK;
    CommandErrorLocal(c, m.sdmmc, a.event.sdmmc);
    VisitSendingCmd(c, a.regs, t.(pending := m));
    assert CommandError(c, m.sdmmc).Some? ==> Has(m.sdmmc, CMD_ERR_MASK);
  }

  /** The event that ends the command without an error also settles the data errors so far. */
  lemma DataTurn(c: Command, regs: Response, orig: Word, t: Txn)
    requires t.state == SendingData && !t.halted && t.err.None?
    requires t.pending.sdmmc == orig - CMD_ERR_MASK - {INT_CMD_DONE}
    ensures Settle(c, regs, orig, t).err == DataError(c, orig)
  {
    SettleData(c, regs, orig, t);
    assert Has(t.pending.sdmmc, DATA_ERR_MASK) <==> Has(orig, DATA_ERR_MASK) by {
      assert CMD_ERR_MASK !! DATA_ERR_MASK && INT_CMD_DONE !in DATA_ERR_MASK;
    }
  }

  lemma ValueSendingCmd(c: Command, es: seq<Event>, t: Txn, a: Arrival)
    requires Agrees(c, es, t) && t.err == ErrorValue(c, es) && t.state == SendingCmd
    ensures Deliver(c, t, a).err == ErrorValue(c, es + [a.event])
  {
    var es' := es + [a.event];
    OrAllSnoc(es, a.event);
    assert es'[..|es|] == es;
    var m := Merge(a.event, t.pending);
    var t1 := Visit(c, a.regs, m.sdmmc, t.(pending := m));
    VisitSendingCmd(c, a.regs, t.(pending := m));
    CommandTurn(c, t, a);
    assert Deliver(c, t, a) == if t1.state == SendingCmd then t1 else Settle(c, a.regs, m.sdmmc, t1);
    assert INT_CMD_DONE in m.sdmmc <==> INT_CMD_DONE in a.event.sdmmc;
    if t1.state == SendingData {
      DataTurn(c, a.regs, m.sdmmc, t1);
      assert m.sdmmc * DATA_ERR_MASK == OrAll(es').sdmmc * DATA_ERR_MASK;
      DataErrorLocal(c, m.sdmmc, OrAll(es').sdmmc);
    } else if t1.state == Idle {
      assert Visit(c, a.regs, m.sdmmc, t1) == t1;
    }
  }

  lemma ValueSendingData(c: Command, es: seq<Event>, t: Txn, a: Arrival)
    requires Agrees(c, es, t) && Defers(c, es, t) && t.err == ErrorValue(c, es) && t.state == SendingData
    ensures Deliver(c, t, a).err == ErrorValue(c, es + [a.event])
  {
    var es' := es + [a.event];
    assert es'[..|es|] == es;
    DeliverSendingData(c, t, a);
    var m := Merge(a.event, t.pending);
    SettleData(c, a.regs, m.sdmmc, t.(pending := m));
    assert m.sdmmc * DATA_ERR_MASK == a.event.sdmmc * DATA_ERR_MASK;
    DataErrorLocal(c, m.sdmmc, a.event.sdmmc);
  }

  lemma ValueBusy(c: Command, es: seq<Event>, t: Txn, a: Arrival)
    requires Agrees(c, es, t) && Defers(c, es, t) && t.err == ErrorValue(c, es) && t.state == Busy
    ensures Deliver(c, t, a).err == ErrorValue(c, es + [a.event])
  {
    var es' := es + [a.event];
    assert es'[..|es|] == es;
    DeliverBusy(c, t, a);
    var m, b := Merge(a.event, t.pending), During(c, es, Busy);
    DuringSnoc(c, es, a.event, Busy);
    assert m.sdmmc * DATA_ERR_MASK == During(c, es', Busy).sdmmc * DATA_ERR_MASK by {
      assert t.pending.sdmmc * DATA_ERR_MASK == b.sdmmc * DATA_ERR_MASK;
      assert m.sdmmc * DATA_ERR_MASK == a.event.sdmmc * DATA_ERR_MASK + t.pending.sdmmc * DATA_ERR_MASK;
      assert (b.sdmmc + a.event.sdmmc) * DATA_ERR_MASK == a.event.sdmmc * DATA_ERR_MASK + b.sdmmc * DATA_ERR_MASK;
    }
    DataErrorLocal(c, m.sdmmc, During(c, es', Busy).sdmmc);
    OrAllSnoc(es, a.event);
    var t1 := Visit(c, a.regs, m.sdmmc, t.(pending := m));
    assert Deliver(c, t, a) == if t1.state == Busy then t1 else Settle(c, a.regs, m.sdmmc, t1);
  }

  /** At every point of every run, the error is ErrorValue of the events so far. */
  lemma {:induction false} RunError(c: Command, t0: Txn, hist: seq<Arrival>)
    requires c.opcode != SD_SWITCH_VOLTAGE && t0 == Start(c, t0.response, t0.dmaOn)
    requires Live(c, t0, hist)
    ensures Run(c, t0, hist).err == ErrorValue(c, Events(hist))
  {
    if hist != [] {
      var front, a := hist[..|hist| - 1], hist[|hist| - 1];
      LivePrefix(c, t0, front);
      RunAgrees(c, t0, front);
      RunDeferred(c, t0, front);
      RunError(c, t0, front);
      EventsSnoc(hist);
      var t := Run(c, t0, front);
      match t.state {
        case SendingCmd => ValueSendingCmd(c, Events(front), t, a);
        case SendingData => ValueSendingData(c, Events(front), t, a);
        case Busy => ValueBusy(c, Events(front), t, a);
      }
    }
  }

  /** `i` is the last event of the history that carries a command error that counts. */
  predicate LastCommandError(c: Command, es: seq<Event>, i: nat) {
    && i < |es|
    && Qualifies(c, es[i].sdmmc)
    && forall j :: i < j < |es| ==> !Qualifies(c, es[j].sdmmc)
  }

  /** While the command is on its way, and in the event that ends it, its last error stands. */
  lemma {:induction false} LastErrorStands(c: Command, es: seq<Event>, i: nat)
    requires LastCommandError(c, es, i)
    requires INT_CMD_DONE !in OrAll(es[..|es| - 1]).sdmmc
    ensures ErrorValue(c, es) == CommandError(c, es[i].sdmmc)
  {
    var front := es[..|es| - 1];
    if i < |front| {
      LastErrorStands(c, front, i);
    }
  }

  /** What a word with a command error says about the error: each kind has its bits. */
  predicate Names(c: Command, w: Word, err: Option<Error>) {
    var crc := INT_RCRC in w && SCF_RSP_CRC in c.flags;
    && (err == Some(Timeout) <==> INT_RTO in w)
    && (err == Some(InvalidCRC) <==> INT_RTO !in w && crc)
    && (err == Some(InvalidResponse) <==> INT_RTO !in w && !crc && INT_RESP_ERR in w)
  }

  /**
   * The error of a run in which a command error was reported before the command was done, or
   * with it: that of the last such event, a response timeout before a checked CRC before a
   * malformed response.
   */
  lemma RunCommandError(c: Command, t0: Txn, hist: seq<Arrival>, i: nat)
    requires c.opcode != SD_SWITCH_VOLTAGE && t0 == Start(c, t0.response, t0.dmaOn)
    requires Live(c, t0, hist) && LastCommandError(c, Events(hist), i)
    requires Run(c, t0, hist[..|hist| - 1]).state == SendingCmd
    ensures Names(c, Events(hist)[i].sdmmc, Run(c, t0, hist).err)
  {
    var front := hist[..|hist| - 1];
    LivePrefix(c, t0, front);
    RunAgrees(c, t0, front);
    EventsSnoc(hist);
    RunError(c, t0, hist);
    LastErrorStands(c, Events(hist), i);
  }

  /** What a word with a data error says about the error: a timeout first, then a CRC error, then an end-bit error. */
  predicate DataNames(c: Command, w: Word, err: Option<Error>) {
    var crc, end := INT_DCRC in w, INT_EBE in w && SCF_CMD_READ !in c.flags;
    && (err == Some(InvalidCRC) <==> crc && INT_DTO !in w)
    && (err == Some(Timeout) <==> INT_DTO in w || (end && !crc))
    && (err == Some(Fail) <==> INT_DTO !in w && !crc && !end)
  }

  /** The data errors the last event settles: by the state it came in, of all events, its own, or of the busy phase. */
  function Settled(c: Command, es: seq<Event>): Word
    requires es != []
  {
    var front, e := es[..|es| - 1], es[|es| - 1].sdmmc;
    match StateOf(c, front)
    case SendingCmd =>
      if c.hasData && INT_CMD_DONE in e && !Qualifies(c, Window(es).sdmmc) then OrAll(es).sdmmc else {}
    case SendingData => e
    case Busy => if INT_DATA_OVER in e then During(c, es, Busy).sdmmc else {}
    case _ => {}
  }

  /** The error of a run whose last event settles a data error. */
  lemma RunDataError(c: Command, t0: Txn, hist: seq<Arrival>)
    requires c.opcode != SD_SWITCH_VOLTAGE && t0 == Start(c, t0.response, t0.dmaOn)
    requires Live(c, t0, hist) && hist != []
    requires Has(Settled(c, Events(hist)), DATA_ERR_MASK)
    ensures DataNames(c, Settled(c, Events(hist)), Run(c, t0, hist).err)
  {
    var front, a := hist[..|hist| - 1], hist[|hist| - 1];
    EventsSnoc(hist);
    LivePrefix(c, t0, front);
    RunAgrees(c, t0, front);
    RunError(c, t0, front);
    RunError(c, t0, hist);
    var es := Events(front);
    assert StateOf(c, es) == SendingCmd ==> Window(Events(hist)) == Merge(OrAll(es), a.event);
  }
}
