/**
 * Which bits a transaction carries along unhandled, told from the event history: from the window
 * and from the ORs of the events of each phase.
 */
module Deferred {
  import opened Common
  import opened Cmd
  import opened Transaction
  import opened History

  /** The OR of the events that came while the transaction stood in state `s`. */
  function During(c: Command, es: seq<Event>, s: State): Event {
    if es == [] then NO_EVENT
    else
      var front, before := es[..|es| - 1], During(c, es[..|es| - 1], s);
      if StateOf(c, front) == s then Merge(before, es[|es| - 1]) else before
  }

  /** The command was done, without an error that counts, and data was to follow. */
  predicate DataPhase(c: Command, es: seq<Event>) {
    c.hasData && INT_CMD_DONE in OrAll(es).sdmmc && !Qualifies(c, Window(es).sdmmc)
  }

  /**
   * The bits left over. Of the window the command part is taken out; the data phase, once
   * entered, takes its error and DMA bits out of the window and of its own events; the busy
   * phase adds its events, of which only DATA_OVER is ever taken.
   */
  function Leftover(c: Command, es: seq<Event>): Event {
    var window, data, busy := Window(es), During(c, es, SendingData), During(c, es, Busy);
    var taken := if DataPhase(c, es) then Event(DATA_ERR_MASK, DMA_DONE_MASK) else NO_EVENT;
    Event(((window.sdmmc - CMD_ERR_MASK - {INT_CMD_DONE}) + data.sdmmc) - taken.sdmmc + (busy.sdmmc - {INT_DATA_OVER}),
          (window.dma + data.dma) - taken.dma + busy.dma)
  }

  /** No phase has events before it is reached. */
  predicate Phased(c: Command, es: seq<Event>) {
    && (StateOf(c, es) == SendingCmd ==> During(c, es, SendingData) == NO_EVENT)
    && (StateOf(c, es) in {SendingCmd, SendingData} ==> During(c, es, Busy) == NO_EVENT)
  }

  /** The deferred bits and the phases of a transaction, after a history. */
  predicate Defers(c: Command, es: seq<Event>, t: Txn) { t.pending == Leftover(c, es) && Phased(c, es) }

  lemma DuringSnoc(c: Command, es: seq<Event>, e: Event, s: State)
    ensures During(c, es + [e], s) ==
      if StateOf(c, es) == s then Merge(During(c, es, s), e) else During(c, es, s)
  {
    assert (es + [e])[..|es|] == es;
  }

  lemma WindowSnoc(es: seq<Event>, e: Event)
    ensures Window(es + [e]) == if INT_CMD_DONE in OrAll(es).sdmmc then Window(es) else Merge(OrAll(es), e)
  {
    assert (es + [e])[..|es|] == es;
    OrAllSnoc(es, e);
  }

  /** No data and no busy phase yet: what is left over is left of the window alone. */
  lemma LeftoverOfWindow(c: Command, es: seq<Event>)
    requires During(c, es, SendingData) == During(c, es, Busy) == NO_EVENT
    ensures var taken := if DataPhase(c, es) then Event(DATA_ERR_MASK, DMA_DONE_MASK) else NO_EVENT;
      Leftover(c, es) ==
        Event(Window(es).sdmmc - CMD_ERR_MASK - {INT_CMD_DONE} - taken.sdmmc, Window(es).dma - taken.dma)
  {}

  lemma DefersSendingCmd(c: Command, es: seq<Event>, t: Txn, a: Arrival)
    requires Agrees(c, es, t) && Defers(c, es, t) && t.state == SendingCmd
    ensures Defers(c, es + [a.event], Deliver(c, t, a))
  {
    var es', m := es + [a.event], Merge(a.event, t.pending);
    DeliverSendingCmd(c, t, a);
    WindowSnoc(es, a.event);
    OrAllSnoc(es, a.event);
    DuringSnoc(c, es, a.event, SendingData);
    DuringSnoc(c, es, a.event, Busy);
    LeftoverOfWindow(c, es');
    var w := Window(es');
    assert m.sdmmc - CMD_ERR_MASK - {INT_CMD_DONE} == w.sdmmc - CMD_ERR_MASK - {INT_CMD_DONE};
    assert m.dma == w.dma;
    assert Qualifies(c, w.sdmmc) <==> t.err.Some? || Qualifies(c, m.sdmmc);
  }

  lemma DefersSendingData(c: Command, es: seq<Event>, t: Txn, a: Arrival)
    requires Agrees(c, es, t) && Defers(c, es, t) && t.state == SendingData
    ensures Defers(c, es + [a.event], Deliver(c, t, a))
  {
    StepSendingData(c, es, t, a);
    DeliverSendingData(c, t, a);
    WindowSnoc(es, a.event);
    OrAllSnoc(es, a.event);
    DuringSnoc(c, es, a.event, SendingData);
    DuringSnoc(c, es, a.event, Busy);
    var w, d := Window(es), During(c, es, SendingData);
    var own := w.sdmmc - CMD_ERR_MASK - {INT_CMD_DONE};
    assert t.pending == Event((own + d.sdmmc) - DATA_ERR_MASK, (w.dma + d.dma) - DMA_DONE_MASK);
    TakeAgain(a.event.sdmmc, own, d.sdmmc, DATA_ERR_MASK);
    TakeAgain(a.event.dma, w.dma, d.dma, DMA_DONE_MASK);
  }

  lemma TakeAgain(e: Word, w: Word, d: Word, mask: Word)
    ensures (e + ((w + d) - mask)) - mask == (w + (d + e)) - mask
  {}

  lemma DefersBusy(c: Command, es: seq<Event>, t: Txn, a: Arrival)
    requires Agrees(c, es, t) && Defers(c, es, t) && t.state == Busy
    ensures Defers(c, es + [a.event], Deliver(c, t, a))
  {
    StepBusy(c, es, t, a);
    DeliverBusy(c, t, a);
    WindowSnoc(es, a.event);
    OrAllSnoc(es, a.event);
    DuringSnoc(c, es, a.event, SendingData);
    DuringSnoc(c, es, a.event, Busy);
    var w, d, b := Window(es), During(c, es, SendingData), During(c, es, Busy);
    var kept := ((w.sdmmc - CMD_ERR_MASK - {INT_CMD_DONE}) + d.sdmmc) - DATA_ERR_MASK;
    AddBusy(a.event.sdmmc, kept, b.sdmmc);
    assert a.event.dma + t.pending.dma == ((w.dma + d.dma) - DMA_DONE_MASK) + (b.dma + a.event.dma);
  }

  lemma AddBusy(e: Word, kept: Word, b: Word)
    requires INT_DATA_OVER !in kept
    ensures (e + (kept + (b - {INT_DATA_OVER}))) - {INT_DATA_OVER} == kept + ((b + e) - {INT_DATA_OVER})
    ensures INT_DATA_OVER !in e ==>
      e + (kept + (b - {INT_DATA_OVER})) == kept + ((b + e) - {INT_DATA_OVER})
  {}

  /** At every point of every run, the unhandled bits are exactly those the history determines. */
  lemma {:induction false} RunDeferred(c: Command, t0: Txn, hist: seq<Arrival>)
    requires c.opcode != SD_SWITCH_VOLTAGE && t0 == Start(c, t0.response, t0.dmaOn)
    requires Live(c, t0, hist)
    ensures Defers(c, Events(hist), Run(c, t0, hist))
    ensures Run(c, t0, hist).pending == Leftover(c, Events(hist))
  {
    if hist != [] {
      var front, a := hist[..|hist| - 1], hist[|hist| - 1];
      LivePrefix(c, t0, front);
      RunAgrees(c, t0, front);
      RunDeferred(c, t0, front);
      EventsSnoc(hist);
      var t := Run(c, t0, front);
      match t.state {
        case SendingCmd => DefersSendingCmd(c, Events(front), t, a);
        case SendingData => DefersSendingData(c, Events(front), t, a);
        case Busy => DefersBusy(c, Events(front), t, a);
      }
    }
  }
}
