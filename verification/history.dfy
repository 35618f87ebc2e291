/**
 * Runs of the event machine told from the event history alone. The state and the verdict
 * are read off ORs of prefixes of the history, without deferred bits or snapshots; the
 * deferred bits come in only to carry the induction.
 */
module History {
  import opened Common
  import opened Cmd
  import opened Transaction

  /** The OR of the events up to and including the first that carries CMD_DONE. */
  function Window(es: seq<Event>): Event {
    if es == [] then NO_EVENT
    else if INT_CMD_DONE in OrAll(es[..|es| - 1]).sdmmc then Window(es[..|es| - 1])
    else OrAll(es)
  }

  /** The DMA had finished, after the command, before the end of the history. */
  predicate Drained(es: seq<Event>) {
    INT_CMD_DONE in OrAll(es).sdmmc && Has(OrAll(es).dma, DMA_DONE_MASK)
  }

  /** A start-bit error was on record after CMD_DONE while the DMA was not known to have finished before. */
  predicate SbeCaught(es: seq<Event>) {
    es != [] &&
    var front := es[..|es| - 1];
    SbeCaught(front)
    || (INT_CMD_DONE in OrAll(es).sdmmc && INT_SBE in OrAll(es).sdmmc && !Drained(front))
  }

  /** Where a transaction stands after a history, told from the history. */
  function StateOf(c: Command, es: seq<Event>): State {
    var all := OrAll(es);
    if INT_CMD_DONE !in all.sdmmc then SendingCmd
    else if !c.hasData || Qualifies(c, Window(es).sdmmc) || INT_DATA_OVER in all.sdmmc || SbeCaught(es) then Idle
    else if Has(all.dma, DMA_DONE_MASK) then Busy
    else SendingData
  }

  /** The verdict of a finished transaction, told from the history. */
  predicate Failed(c: Command, es: seq<Event>) {
    Qualifies(c, Window(es).sdmmc) || (c.hasData && Has(OrAll(es).sdmmc, DATA_ERR_MASK))
  }

  /** The error flag of a transaction that stands in state `s`, told from the history. */
  predicate ErrorOf(c: Command, es: seq<Event>, t: Txn) {
    var all := OrAll(es);
    match t.state
    case SendingCmd => t.err.Some? <==> Qualifies(c, all.sdmmc)
    case SendingData => t.err.Some? <==> Has(all.sdmmc, DATA_ERR_MASK)
    case Busy => Has(all.sdmmc, DATA_ERR_MASK) <==> t.err.Some? || Has(t.pending.sdmmc, DATA_ERR_MASK)
    case _ => t.err.Some? <==> Failed(c, es)
  }

  /** What is needed about the bits of the history that are still waiting to be handled. */
  predicate PendingOf(es: seq<Event>, t: Txn) {
    var all := OrAll(es);
    match t.state
    case SendingCmd => t.pending == Event(all.sdmmc - CMD_ERR_MASK, all.dma)
    case SendingData => Within(t.pending, all) && t.pending.dma == all.dma && !Has(t.pending.sdmmc, DATA_ERR_MASK)
    case _ => Within(t.pending, all)
  }

  /** The run was still listening when its last event was delivered. */
  predicate Live(c: Command, t0: Txn, hist: seq<Arrival>) {
    hist == [] || Listening(Run(c, t0, hist[..|hist| - 1]))
  }

  predicate Agrees(c: Command, es: seq<Event>, t: Txn) {
    && !t.halted
    && t.state == StateOf(c, es)
    && ErrorOf(c, es, t)
    && PendingOf(es, t)
  }

  lemma EventsSnoc(hist: seq<Arrival>)
    requires hist != []
    ensures Events(hist) == Events(hist[..|hist| - 1]) + [hist[|hist| - 1].event]
    ensures Events(hist)[..|hist| - 1] == Events(hist[..|hist| - 1])
  {}

  /** From SendingData with a merged word, a call stops after at most two more states. */
  lemma SettleData(c: Command, regs: Response, orig: Word, t: Txn)
    requires t.state == SendingData && !t.halted
    requires INT_DATA_OVER in t.pending.sdmmc ==> INT_DATA_OVER in orig
    ensures Settle(c, regs, orig, t) == Visit(c, regs, orig, t)
  {
    var t1 := Visit(c, regs, orig, t);
    if t1.state == Busy {
      assert Visit(c, regs, orig, t1) == t1;
    }
  }

  /** What a turn in SendingCmd does, in terms of the merged word. */
  lemma VisitSendingCmd(c: Command, regs: Response, t: Txn)
    requires t.state == SendingCmd
    ensures var m := t.pending; var t' := Visit(c, regs, m.sdmmc, t);
      && (t'.err.Some? <==> t.err.Some? || Qualifies(c, m.sdmmc))
      && t'.pending == Event(m.sdmmc - CMD_ERR_MASK - {INT_CMD_DONE}, m.dma)
      && t'.halted == t.halted
      && t'.state == (if INT_CMD_DONE !in m.sdmmc then SendingCmd
                      else if t'.err.Some? || !c.hasData then Idle else SendingData)
  {
    var m := t.pending;
    assert m.sdmmc - CMD_ERR_MASK - {INT_CMD_DONE} == (m.sdmmc - CMD_ERR_MASK) - {INT_CMD_DONE};
    assert !Has(m.sdmmc, CMD_ERR_MASK) ==> m.sdmmc - CMD_ERR_MASK == m.sdmmc;
    assert INT_CMD_DONE !in m.sdmmc ==> m.sdmmc - CMD_ERR_MASK - {INT_CMD_DONE} == m.sdmmc - CMD_ERR_MASK;
    assert INT_CMD_DONE !in CMD_ERR_MASK;
    assert Qualifies(c, m.sdmmc) ==> Has(m.sdmmc, CMD_ERR_MASK) by {
      assert INT_RTO in CMD_ERR_MASK && INT_RCRC in CMD_ERR_MASK && INT_RESP_ERR in CMD_ERR_MASK;
    }
  }

  /** What a turn in SendingData does, in terms of the word left and the word the call began with. */
  lemma VisitSendingData(c: Command, regs: Response, orig: Word, t: Txn)
    requires t.state == SendingData
    requires t.pending.sdmmc <= orig
    ensures var p := t.pending; var t' := Visit(c, regs, orig, t);
      && (t'.err.Some? <==> t.err.Some? || Has(p.sdmmc, DATA_ERR_MASK))
      && t'.pending == Event(p.sdmmc - DATA_ERR_MASK, p.dma - DMA_DONE_MASK)
      && t'.halted == t.halted
      && t'.state == (if Has(orig, {INT_SBE, INT_DATA_OVER}) then Idle
                      else if Has(p.dma, DMA_DONE_MASK) then Busy else SendingData)
  {
    var p := t.pending;
    assert !Has(p.sdmmc, DATA_ERR_MASK) ==> p.sdmmc - DATA_ERR_MASK == p.sdmmc;
    assert !Has(p.dma, DMA_DONE_MASK) ==> p.dma - DMA_DONE_MASK == p.dma;
    assert Has(p.sdmmc, DATA_ERR_MASK) ==> Has(orig, DATA_ERR_MASK);
  }

  /** Every report in SendingCmd, with the later states it may reach in the same call. */
  lemma DeliverSendingCmd(c: Command, t: Txn, a: Arrival)
    requires t.state == SendingCmd && !t.halted
    ensures var m := Merge(a.event, t.pending); var t' := Deliver(c, t, a);
      var cmdErr := t.err.Some? || Qualifies(c, m.sdmmc);
      && !t'.halted
      && (INT_CMD_DONE !in m.sdmmc ==>
           && t'.state == SendingCmd && (t'.err.Some? <==> cmdErr)
           && t'.pending == Event(m.sdmmc - CMD_ERR_MASK - {INT_CMD_DONE}, m.dma))
      && (INT_CMD_DONE in m.sdmmc && (cmdErr || !c.hasData) ==>
           && t'.state == Idle && (t'.err.Some? <==> cmdErr)
           && t'.pending == Event(m.sdmmc - CMD_ERR_MASK - {INT_CMD_DONE}, m.dma))
      && (INT_CMD_DONE in m.sdmmc && !cmdErr && c.hasData ==>
           && t'.state == (if Has(m.sdmmc, {INT_SBE, INT_DATA_OVER}) then Idle
                           else if Has(m.dma, DMA_DONE_MASK) then Busy else SendingData)
           && (t'.err.Some? <==> Has(m.sdmmc, DATA_ERR_MASK))
           && t'.pending == Event(m.sdmmc - CMD_ERR_MASK - {INT_CMD_DONE} - DATA_ERR_MASK, m.dma - DMA_DONE_MASK))
  {
    var m := Merge(a.event, t.pending);
    var t0 := t.(pending := m);
    var t1 := Visit(c, a.regs, m.sdmmc, t0);
    VisitSendingCmd(c, a.regs, t0);
    assert Deliver(c, t, a) == if t1.state == SendingCmd then t1 else Settle(c, a.regs, m.sdmmc, t1);
    if t1.state == Idle {
      assert Visit(c, a.regs, m.sdmmc, t1) == t1;
    }
    if t1.state == SendingData {
      SettleData(c, a.regs, m.sdmmc, t1);
      VisitSendingData(c, a.regs, m.sdmmc, t1);
      assert Has(m.sdmmc - CMD_ERR_MASK - {INT_CMD_DONE}, DATA_ERR_MASK) <==> Has(m.sdmmc, DATA_ERR_MASK) by {
        assert CMD_ERR_MASK !! DATA_ERR_MASK && INT_CMD_DONE !in DATA_ERR_MASK;
      }
    }
  }

  lemma DeliverSendingData(c: Command, t: Txn, a: Arrival)
    requires t.state == SendingData && !t.halted
    ensures var m := Merge(a.event, t.pending); var t' := Deliver(c, t, a);
      && !t'.halted
      && t'.state == (if Has(m.sdmmc, {INT_SBE, INT_DATA_OVER}) then Idle
                      else if Has(m.dma, DMA_DONE_MASK) then Busy else SendingData)
      && (t'.err.Some? <==> t.err.Some? || Has(m.sdmmc, DATA_ERR_MASK))
      && t'.pending == Event(m.sdmmc - DATA_ERR_MASK, m.dma - DMA_DONE_MASK)
  {
    var m := Merge(a.event, t.pending);
    SettleData(c, a.regs, m.sdmmc, t.(pending := m));
    VisitSendingData(c, a.regs, m.sdmmc, t.(pending := m));
  }

  lemma DeliverBusy(c: Command, t: Txn, a: Arrival)
    requires t.state == Busy && !t.halted
    ensures var m := Merge(a.event, t.pending); var t' := Deliver(c, t, a);
      && !t'.halted
      && (INT_DATA_OVER in m.sdmmc ==>
           t'.state == Idle && (t'.err.Some? <==> t.err.Some? || Has(m.sdmmc, DATA_ERR_MASK))
           && t'.pending == Event(m.sdmmc - {INT_DATA_OVER}, m.dma))
      && (INT_DATA_OVER !in m.sdmmc ==> t' == t.(pending := m))
  {
    var m := Merge(a.event, t.pending);
    var t0 := t.(pending := m);
    var t1 := Visit(c, a.regs, m.sdmmc, t0);
    assert Deliver(c, t, a) == if t1.state == Busy then t1 else Settle(c, a.regs, m.sdmmc, t1);
  }

  lemma StepSendingCmd(c: Command, es: seq<Event>, t: Txn, a: Arrival)
    requires Agrees(c, es, t) && t.state == SendingCmd
    ensures Agrees(c, es + [a.event], Deliver(c, t, a))
  {
    var es' := es + [a.event];
    OrAllSnoc(es, a.event);
    assert es'[..|es|] == es;
    DeliverSendingCmd(c, t, a);
    SbeNeedsDone(es);
    var m := Merge(a.event, t.pending);
    assert Has(m.sdmmc, DATA_ERR_MASK) <==> Has(OrAll(es').sdmmc, DATA_ERR_MASK);
    assert Has(m.sdmmc, {INT_SBE, INT_DATA_OVER}) <==> Has(OrAll(es').sdmmc, {INT_SBE, INT_DATA_OVER});
    assert m.dma == OrAll(es').dma;
    assert t.err.Some? || Qualifies(c, m.sdmmc) <==> Qualifies(c, OrAll(es').sdmmc);
  }

  lemma {:induction false} SbeNeedsDone(es: seq<Event>)
    ensures SbeCaught(es) ==> INT_CMD_DONE in OrAll(es).sdmmc && INT_SBE in OrAll(es).sdmmc
  {
    if es != [] {
      SbeNeedsDone(es[..|es| - 1]);
    }
  }

  lemma StepSendingData(c: Command, es: seq<Event>, t: Txn, a: Arrival)
    requires Agrees(c, es, t) && t.state == SendingData
    ensures Agrees(c, es + [a.event], Deliver(c, t, a))
  {
    var es' := es + [a.event];
    OrAllSnoc(es, a.event);
    assert es'[..|es|] == es;
    DeliverSendingData(c, t, a);
    var m := Merge(a.event, t.pending);
    assert Has(OrAll(es').sdmmc, DATA_ERR_MASK) <==> t.err.Some? || Has(m.sdmmc, DATA_ERR_MASK);
    assert Has(m.sdmmc, {INT_SBE, INT_DATA_OVER}) <==> Has(OrAll(es').sdmmc, {INT_SBE, INT_DATA_OVER}) by {
      SbeNotPending(c, es, t);
    }
    assert m.dma == OrAll(es').dma;
  }

  lemma SbeNotPending(c: Command, es: seq<Event>, t: Txn)
    requires Agrees(c, es, t) && t.state == SendingData
    ensures !Has(OrAll(es).sdmmc, {INT_SBE, INT_DATA_OVER})
  {
    if es != [] {
      OrAllPrefix(es, |es| - 1);
      assert Drained(es[..|es| - 1]) ==> Has(OrAll(es).dma, DMA_DONE_MASK);
    }
  }

  lemma StepBusy(c: Command, es: seq<Event>, t: Txn, a: Arrival)
    requires Agrees(c, es, t) && t.state == Busy
    ensures Agrees(c, es + [a.event], Deliver(c, t, a))
  {
    var es' := es + [a.event];
    OrAllSnoc(es, a.event);
    assert es'[..|es|] == es;
    DeliverBusy(c, t, a);
    var m := Merge(a.event, t.pending);
    assert Has(OrAll(es').sdmmc, DATA_ERR_MASK) <==> t.err.Some? || Has(m.sdmmc, DATA_ERR_MASK);
  }

  /**
   * The machine and the history agree: at every point of a listening run, the state is StateOf
   * the events so far, and the error flag is what the history says. The deferred bits are bounded
   * here as far as later steps need it; module Deferred gives them exactly.
   */
  lemma {:induction false} RunAgrees(c: Command, t0: Txn, hist: seq<Arrival>)
    requires c.opcode != SD_SWITCH_VOLTAGE
    requires t0 == Start(c, t0.response, t0.dmaOn)
    requires Live(c, t0, hist)
    ensures Agrees(c, Events(hist), Run(c, t0, hist))
  {
    if hist != [] {
      var front, a := hist[..|hist| - 1], hist[|hist| - 1];
      LivePrefix(c, t0, front);
      RunAgrees(c, t0, front);
      EventsSnoc(hist);
      var t := Run(c, t0, front);
      match t.state {
        case SendingCmd => StepSendingCmd(c, Events(front), t, a);
        case SendingData => StepSendingData(c, Events(front), t, a);
        case Busy => StepBusy(c, Events(front), t, a);
      }
    }
  }

  /** A run that still listens has listened all along. */
  lemma LivePrefix(c: Command, t0: Txn, hist: seq<Arrival>)
    requires Listening(Run(c, t0, hist))
    ensures Live(c, t0, hist)
  {}

  lemma {:induction false} WindowWithin(es: seq<Event>)
    ensures Within(Window(es), OrAll(es))
  {
    if es != [] {
      WindowWithin(es[..|es| - 1]);
      OrAllPrefix(es, |es| - 1);
    }
  }

  /** Once CMD_DONE is on record the window is closed. */
  lemma {:induction false} WindowClosed(es: seq<Event>, i: nat)
    requires i <= |es| && INT_CMD_DONE in OrAll(es[..i]).sdmmc
    ensures Window(es) == Window(es[..i])
  {
    if i == |es| {
      assert es[..i] == es;
    } else {
      var front := es[..|es| - 1];
      assert front[..i] == es[..i];
      OrAllPrefix(front, i);
      WindowClosed(front, i);
    }
  }

  /** No proper prefix of the history already finishes the transaction. */
  predicate JustFinished(c: Command, es: seq<Event>) {
    && StateOf(c, es) == Idle
    && forall i :: 0 <= i < |es| ==> StateOf(c, es[..i]) != Idle
  }

  lemma EventsPrefix(hist: seq<Arrival>, i: nat)
    requires i <= |hist|
    ensures Events(hist[..i]) == Events(hist)[..i]
  {}

  /** Every run is decided by the events delivered while it still listened. */
  lemma {:induction false} LiveCore(c: Command, t0: Txn, hist: seq<Arrival>) returns (m: nat)
    ensures m <= |hist| && Live(c, t0, hist[..m])
    ensures Run(c, t0, hist) == Run(c, t0, hist[..m])
    ensures m == |hist| || !Listening(Run(c, t0, hist))
  {
    m := |hist|;
    assert hist[..m] == hist;
    if hist != [] && !Listening(Run(c, t0, hist[..|hist| - 1])) {
      m := LiveCore(c, t0, hist[..|hist| - 1]);
      assert hist[..|hist| - 1][..m] == hist[..m];
    }
  }

  /** While a run listens, its history is not yet that of a finished transaction. */
  lemma {:induction false} LiveUnfinished(c: Command, t0: Txn, hist: seq<Arrival>, i: nat)
    requires c.opcode != SD_SWITCH_VOLTAGE && t0 == Start(c, t0.response, t0.dmaOn)
    requires Live(c, t0, hist) && i < |hist|
    ensures StateOf(c, Events(hist)[..i]) != Idle
  {
    var front := hist[..|hist| - 1];
    LivePrefix(c, t0, front);
    if i == |front| {
      RunAgrees(c, t0, front);
      EventsSnoc(hist);
    } else {
      LiveUnfinished(c, t0, front, i);
      EventsSnoc(hist);
      assert Events(hist)[..i] == Events(front)[..i];
    }
  }

  /**
   * The verdict of a finished run: it failed iff a qualifying command error was reported up to
   * and including the event with CMD_DONE or, for a data command, a data error in any event.
   */
  lemma Verdict(c: Command, t0: Txn, hist: seq<Arrival>)
    requires c.opcode != SD_SWITCH_VOLTAGE && t0 == Start(c, t0.response, t0.dmaOn)
    requires Live(c, t0, hist) && Run(c, t0, hist).state == Idle
    ensures JustFinished(c, Events(hist))
    ensures Run(c, t0, hist).err.Some? <==> Failed(c, Events(hist))
  {
    RunAgrees(c, t0, hist);
    forall i | 0 <= i < |hist| ensures StateOf(c, Events(hist)[..i]) != Idle {
      LiveUnfinished(c, t0, hist, i);
    }
  }
}
