/** What every run of the event machine keeps, for any command and any history of events. */
module Runs {
  import opened Common
  import opened Cmd
  import opened Transaction
  import opened History

  // ---- completion ----

  /** No error that could count for `c` is anywhere in the history. */
  predicate Clean(c: Command, es: seq<Event>) {
    && !Qualifies(c, OrAll(es).sdmmc)
    && (c.hasData ==> !Has(OrAll(es).sdmmc, DATA_ERR_MASK))
  }

  /** A transaction that ends without error has seen its command and its data finish. */
  lemma CompletionSafety(c: Command, t0: Txn, hist: seq<Arrival>)
    requires c.opcode != SD_SWITCH_VOLTAGE && t0 == Start(c, t0.response, t0.dmaOn)
    requires Run(c, t0, hist).state == Idle && Run(c, t0, hist).err.None?
    ensures INT_CMD_DONE in OrAll(Events(hist)).sdmmc
    ensures c.hasData ==> INT_DATA_OVER in OrAll(Events(hist)).sdmmc
  {
    var m := LiveCore(c, t0, hist);
    Verdict(c, t0, hist[..m]);
    EventsPrefix(hist, m);
    OrAllPrefix(Events(hist), m);
    SbeNeedsDone(Events(hist[..m]));
    assert INT_SBE in DATA_ERR_MASK;
  }

  /** Without errors a run ends exactly when its command, and its data if any, have been reported done. */
  lemma CleanCompletion(c: Command, t0: Txn, hist: seq<Arrival>)
    requires c.opcode != SD_SWITCH_VOLTAGE && t0 == Start(c, t0.response, t0.dmaOn)
    requires Clean(c, Events(hist))
    ensures Run(c, t0, hist).err.None?
    ensures Run(c, t0, hist).state == Idle
       <==> INT_CMD_DONE in OrAll(Events(hist)).sdmmc && (c.hasData ==> INT_DATA_OVER in OrAll(Events(hist)).sdmmc)
  {
    var m := LiveCore(c, t0, hist);
    var es := Events(hist[..m]);
    RunAgrees(c, t0, hist[..m]);
    EventsPrefix(hist, m);
    OrAllPrefix(Events(hist), m);
    SbeNeedsDone(es);
    WindowWithin(es);
    assert INT_SBE in DATA_ERR_MASK;
    if m == |hist| {
      assert es == Events(hist);
    }
  }

  /** Command and, for a data command, data have been reported done. */
  predicate Complete(c: Command, es: seq<Event>) {
    INT_CMD_DONE in OrAll(es).sdmmc && (c.hasData ==> INT_DATA_OVER in OrAll(es).sdmmc)
  }

  /** Whatever errors it saw: a run has ended exactly if StateOf says so of some prefix of its events. */
  lemma EndsIff(c: Command, t0: Txn, hist: seq<Arrival>)
    requires c.opcode != SD_SWITCH_VOLTAGE && t0 == Start(c, t0.response, t0.dmaOn)
    ensures Run(c, t0, hist).state == Idle
       <==> exists i :: 0 <= i <= |hist| && StateOf(c, Events(hist)[..i]) == Idle
  {
    var m := LiveCore(c, t0, hist);
    RunAgrees(c, t0, hist[..m]);
    EventsPrefix(hist, m);
    if i :| 0 <= i <= |hist| && StateOf(c, Events(hist)[..i]) == Idle {
      if i < m {
        assert Events(hist)[..m][..i] == Events(hist)[..i];
        LiveUnfinished(c, t0, hist[..m], i);
      } else if m == |hist| {
        assert i == m;
      }
    }
  }

  /** Whatever errors it saw, a run has ended once command and data have been reported done. */
  lemma CompleteEnds(c: Command, t0: Txn, hist: seq<Arrival>)
    requires c.opcode != SD_SWITCH_VOLTAGE && t0 == Start(c, t0.response, t0.dmaOn)
    requires Complete(c, Events(hist))
    ensures Run(c, t0, hist).state == Idle
  {
    EndsIff(c, t0, hist);
    assert Events(hist)[..|hist|] == Events(hist);
  }

  // ---- voltage switch ----

  /** What a voltage switch waits for: a command error, or the switch interrupt. */
  const SWITCH_BITS: Word := CMD_ERR_MASK + {INT_VOLT_SW}

  lemma DeliverVoltageSwitch(c: Command, t: Txn, a: Arrival)
    requires t.state == SendingVoltageSwitch && !t.halted && t.err.None? && t.pending.sdmmc !! SWITCH_BITS
    ensures var t', e := Deliver(c, t, a), a.event.sdmmc;
      && (t'.halted <==> INT_VOLT_SW in e)
      && t'.state == (if Has(e, CMD_ERR_MASK) then Idle else SendingVoltageSwitch)
      && (t'.err.Some? <==> Qualifies(c, e))
      && (!Has(e, SWITCH_BITS) ==> t'.pending == Merge(a.event, t.pending))
  {
    var m := Merge(a.event, t.pending);
    var t1 := Visit(c, a.regs, m.sdmmc, t.(pending := m));
    assert Has(m.sdmmc, CMD_ERR_MASK) <==> Has(a.event.sdmmc, CMD_ERR_MASK);
    assert Qualifies(c, m.sdmmc) <==> Qualifies(c, a.event.sdmmc);
    assert INT_VOLT_SW !in CMD_ERR_MASK;
    assert INT_RTO in CMD_ERR_MASK && INT_RCRC in CMD_ERR_MASK && INT_RESP_ERR in CMD_ERR_MASK;
    assert Deliver(c, t, a) ==
      if t1.halted || t1.state == SendingVoltageSwitch then t1 else Settle(c, a.regs, m.sdmmc, t1);
  }

  /**
   * A voltage switch is decided by the first event with a command error or the switch interrupt:
   * with the interrupt it halts, else it ends, failed iff the error counts.
   */
  lemma {:induction false} VoltageRun(c: Command, t0: Txn, hist: seq<Arrival>)
    requires c.opcode == SD_SWITCH_VOLTAGE && t0 == Start(c, t0.response, t0.dmaOn)
    requires Live(c, t0, hist)
    ensures Listening(Run(c, t0, hist)) <==> !Has(OrAll(Events(hist)).sdmmc, SWITCH_BITS)
    ensures Listening(Run(c, t0, hist)) ==>
      var t := Run(c, t0, hist); t.state == SendingVoltageSwitch && t.err.None? && t.pending == OrAll(Events(hist))
    ensures !Listening(Run(c, t0, hist)) ==>
      var t, e := Run(c, t0, hist), hist[|hist| - 1].event.sdmmc;
      (t.halted <==> INT_VOLT_SW in e) && (t.err.Some? <==> Qualifies(c, e))
  {
    if hist != [] {
      var front, a := hist[..|hist| - 1], hist[|hist| - 1];
      LivePrefix(c, t0, front);
      VoltageRun(c, t0, front);
      EventsSnoc(hist);
      OrAllSnoc(Events(front), a.event);
      DeliverVoltageSwitch(c, Run(c, t0, front), a);
    }
  }

  // ---- progress ----

  /** The number of state changes inside one call. */
  function Moves(c: Command, regs: Response, orig: Word, t: Txn): nat
    decreases Rank(t.state)
  {
    var t' := Visit(c, regs, orig, t);
    if t'.state == t.state then 0
    else if t'.halted then 1
    else 1 + Moves(c, regs, orig, t')
  }

  /** The number of state changes in a whole run. */
  function RunMoves(c: Command, t0: Txn, hist: seq<Arrival>): nat {
    if hist == [] then 0
    else
      var front, a := hist[..|hist| - 1], hist[|hist| - 1];
      var t := Run(c, t0, front);
      var merged := Merge(a.event, t.pending);
      RunMoves(c, t0, front)
      + if Listening(t) then Moves(c, a.regs, merged.sdmmc, t.(pending := merged)) else 0
  }

  lemma {:induction false} SettleProgress(c: Command, regs: Response, orig: Word, t: Txn)
    ensures Moves(c, regs, orig, t) + Rank(Settle(c, regs, orig, t).state) <= Rank(t.state)
    ensures t.err.Some? ==> Settle(c, regs, orig, t).err.Some?
    decreases Rank(t.state)
  {
    var t' := Visit(c, regs, orig, t);
    if !t'.halted && t'.state != t.state {
      SettleProgress(c, regs, orig, t');
    }
  }

  /**
   * However many events arrive, the state moves at most three times, never back up the rank,
   * and an error once set stays set.
   */
  lemma {:induction false} RunProgress(c: Command, t0: Txn, hist: seq<Arrival>, i: nat)
    requires t0 == Start(c, t0.response, t0.dmaOn)
    requires i <= |hist|
    ensures RunMoves(c, t0, hist) + Rank(Run(c, t0, hist).state) <= 3
    ensures Rank(Run(c, t0, hist).state) <= Rank(Run(c, t0, hist[..i]).state)
    ensures Run(c, t0, hist[..i]).err.Some? ==> Run(c, t0, hist).err.Some?
  {
    if hist != [] {
      var front, a := hist[..|hist| - 1], hist[|hist| - 1];
      var t := Run(c, t0, front);
      RunProgress(c, t0, front, if i == |hist| then i - 1 else i);
      var merged := Merge(a.event, t.pending);
      SettleProgress(c, a.regs, merged.sdmmc, t.(pending := merged));
      if i == |hist| {
        assert hist[..i] == hist;
      } else {
        assert front[..i] == hist[..i];
      }
    } else {
      assert hist[..i] == hist;
    }
  }

  // ---- DMA ----

  lemma VisitDma(c: Command, regs: Response, orig: Word, t: Txn)
    requires c.hasData && (t.dmaOn <==> t.err.None?) && t.pending.sdmmc <= orig
    ensures var t' := Visit(c, regs, orig, t); (t'.dmaOn <==> t'.err.None?) && t'.pending.sdmmc <= orig
  {
    assert Has(t.pending.sdmmc, DATA_ERR_MASK) ==> Has(orig, DATA_ERR_MASK);
    match t.state {
      case Unset =>
      case Idle =>
      case SendingCmd =>
      case SendingData =>
      case Busy =>
      case SendingVoltageSwitch =>
      case WaitingVoltageSwitch =>
    }
  }

  lemma {:induction false} SettleDma(c: Command, regs: Response, orig: Word, t: Txn)
    requires c.hasData && (t.dmaOn <==> t.err.None?) && t.pending.sdmmc <= orig
    ensures var t' := Settle(c, regs, orig, t); t'.dmaOn <==> t'.err.None?
    decreases Rank(t.state)
  {
    var t' := Visit(c, regs, orig, t);
    VisitDma(c, regs, orig, t);
    if !t'.halted && t'.state != t.state {
      SettleDma(c, regs, orig, t');
    }
  }

  /** The DMA a data command was given runs as long as, and only as long as, no error is set. */
  lemma {:induction false} DmaDiscipline(c: Command, t0: Txn, hist: seq<Arrival>)
    requires c.hasData && t0 == Start(c, t0.response, true)
    ensures Run(c, t0, hist).dmaOn <==> Run(c, t0, hist).err.None?
  {
    if hist != [] {
      var front, a := hist[..|hist| - 1], hist[|hist| - 1];
      DmaDiscipline(c, t0, front);
      var t := Run(c, t0, front);
      var merged := Merge(a.event, t.pending);
      SettleDma(c, a.regs, merged.sdmmc, t.(pending := merged));
    }
  }

  // ---- bit conservation ----

  function Minus(a: Event, b: Event): Event { Event(a.sdmmc - b.sdmmc, a.dma - b.dma) }

  predicate Apart(a: Event, b: Event) { a.sdmmc !! b.sdmmc && a.dma !! b.dma }

  /** The masks a state checks for and clears, in its turn of the loop. */
  function Masks(s: State): Event {
    match s
    case Unset => NO_EVENT
    case Idle => NO_EVENT
    case SendingCmd => Event(CMD_ERR_MASK + {INT_CMD_DONE}, {})
    case SendingData => Event(DATA_ERR_MASK, DMA_DONE_MASK)
    case Busy => Event({INT_DATA_OVER}, {})
    case SendingVoltageSwitch => Event(CMD_ERR_MASK + {INT_VOLT_SW}, {})
    case WaitingVoltageSwitch => Event(CMD_ERR_MASK + {INT_VOLT_SW}, {})
  }

  /** The controller bits the machine acts on; everything else is only carried along. */
  const ACTED_ON: Word := CMD_ERR_MASK + DATA_ERR_MASK + {INT_CMD_DONE, INT_DATA_OVER}

  /** The bits the mask checks of one turn find set. */
  function Hits(t: Txn): Event { Event(t.pending.sdmmc * Masks(t.state).sdmmc, t.pending.dma * Masks(t.state).dma) }

  /** The bits found set by all mask checks of one call, turn after turn. */
  function SettleHits(c: Command, regs: Response, orig: Word, t: Txn): Event
    decreases Rank(t.state)
  {
    var t' := Visit(c, regs, orig, t);
    if t'.halted || t'.state == t.state then Hits(t)
    else Merge(Hits(t), SettleHits(c, regs, orig, t'))
  }

  function HandledBy(c: Command, t: Txn, a: Arrival): Event {
    var merged := Merge(a.event, t.pending);
    SettleHits(c, a.regs, merged.sdmmc, t.(pending := merged))
  }

  /** All bits handled in a run. */
  function Handled(c: Command, t0: Txn, hist: seq<Arrival>): Event {
    if hist == [] then NO_EVENT
    else
      var front := hist[..|hist| - 1];
      Merge(Handled(c, t0, front), HandledBy(c, Run(c, t0, front), hist[|hist| - 1]))
  }

  /** `whole` is `done` and `left` together, with no bit in both. */
  predicate Split(whole: Event, done: Event, left: Event) { Merge(done, left) == whole && Apart(done, left) }

  lemma MinusTwice(w: Word, m: Word, n: Word)
    ensures w - m - n == w - (m + n)
  {}

  lemma MinusNothing(w: Word, m: Word)
    requires !Has(w, m)
    ensures w - m == w
  {}

  /** A turn clears exactly the masks of its state: the bits it takes are the ones it has checked for. */
  lemma VisitClears(c: Command, regs: Response, orig: Word, t: Txn)
    ensures Visit(c, regs, orig, t).pending == Minus(t.pending, Masks(t.state))
  {
    var w := t.pending.sdmmc;
    MinusTwice(w, CMD_ERR_MASK, {INT_CMD_DONE});
    MinusTwice(w, CMD_ERR_MASK, {INT_VOLT_SW});
    match t.state {
      case Unset =>
      case Idle =>
      case SendingCmd =>
        VisitClearsPair(w, INT_CMD_DONE);
      case SendingData =>
        if !Has(w, DATA_ERR_MASK) { MinusNothing(w, DATA_ERR_MASK); }
        if !Has(t.pending.dma, DMA_DONE_MASK) { MinusNothing(t.pending.dma, DMA_DONE_MASK); }
      case Busy =>
        if INT_DATA_OVER !in w { MinusNothing(w, {INT_DATA_OVER}); }
      case SendingVoltageSwitch =>
        VisitClearsPair(w, INT_VOLT_SW);
      case WaitingVoltageSwitch =>
        VisitClearsPair(w, INT_VOLT_SW);
    }
  }

  /** The command error bits, then one more. */
  lemma VisitClearsPair(w: Word, b: Bit)
    ensures !Has(w, CMD_ERR_MASK) ==> w - CMD_ERR_MASK == w
    ensures b !in w - CMD_ERR_MASK ==> w - CMD_ERR_MASK - {b} == w - CMD_ERR_MASK
  {
    if !Has(w, CMD_ERR_MASK) { MinusNothing(w, CMD_ERR_MASK); }
    if b !in w - CMD_ERR_MASK { MinusNothing(w - CMD_ERR_MASK, {b}); }
  }

  lemma VisitSplits(c: Command, regs: Response, orig: Word, t: Txn)
    ensures Split(t.pending, Hits(t), Visit(c, regs, orig, t).pending)
    ensures Hits(t).sdmmc <= ACTED_ON && Hits(t).dma <= DMA_DONE_MASK
  {
    VisitClears(c, regs, orig, t);
    assert INT_VOLT_SW in DATA_ERR_MASK;
    assert Masks(t.state).sdmmc <= ACTED_ON && Masks(t.state).dma <= DMA_DONE_MASK;
    HitsSplit(t.pending.sdmmc, Masks(t.state).sdmmc);
    HitsSplit(t.pending.dma, Masks(t.state).dma);
  }

  lemma HitsSplit(w: Word, m: Word)
    ensures w * m + (w - m) == w && w * m !! w - m
  {}

  lemma SplitAgain(whole: Event, done: Event, mid: Event, done': Event, left: Event)
    requires Split(whole, done, mid) && Split(mid, done', left)
    ensures Split(whole, Merge(done, done'), left)
  {
    MergeAssoc(done, done', left);
  }

  lemma {:induction false} SettleSplits(c: Command, regs: Response, orig: Word, t: Txn)
    ensures Split(t.pending, SettleHits(c, regs, orig, t), Settle(c, regs, orig, t).pending)
    ensures SettleHits(c, regs, orig, t).sdmmc <= ACTED_ON && SettleHits(c, regs, orig, t).dma <= DMA_DONE_MASK
    decreases Rank(t.state)
  {
    var t' := Visit(c, regs, orig, t);
    VisitSplits(c, regs, orig, t);
    if !t'.halted && t'.state != t.state {
      SettleSplits(c, regs, orig, t');
      SplitAgain(t.pending, Hits(t), t'.pending, SettleHits(c, regs, orig, t'), Settle(c, regs, orig, t').pending);
    }
  }

  /**
   * One call splits its merged input into what its mask checks took, turn after turn, and what
   * it leaves for the next call, with nothing in both and nothing missing.
   */
  lemma CallConserves(c: Command, t: Txn, a: Arrival)
    ensures Split(Merge(a.event, t.pending), HandledBy(c, t, a), Deliver(c, t, a).pending)
    ensures HandledBy(c, t, a).sdmmc <= ACTED_ON && HandledBy(c, t, a).dma <= DMA_DONE_MASK
  {
    var merged := Merge(a.event, t.pending);
    SettleSplits(c, a.regs, merged.sdmmc, t.(pending := merged));
  }

  /** No delivered bit is lost and none is invented: a mask check took it or it is still unhandled. */
  lemma {:induction false} RunConserves(c: Command, t0: Txn, hist: seq<Arrival>)
    requires t0 == Start(c, t0.response, t0.dmaOn)
    requires Live(c, t0, hist)
    ensures OrAll(Events(hist)) == Merge(Handled(c, t0, hist), Run(c, t0, hist).pending)
    ensures Handled(c, t0, hist).sdmmc <= ACTED_ON && Handled(c, t0, hist).dma <= DMA_DONE_MASK
  {
    if hist != [] {
      var front, a := hist[..|hist| - 1], hist[|hist| - 1];
      var t := Run(c, t0, front);
      LivePrefix(c, t0, front);
      RunConserves(c, t0, front);
      CallConserves(c, t, a);
      EventsSnoc(hist);
      OrAllSnoc(Events(front), a.event);
      var h, d, left := Handled(c, t0, front), HandledBy(c, t, a), Run(c, t0, hist).pending;
      assert Merge(d, left) == Merge(a.event, t.pending);
      assert h.sdmmc + t.pending.sdmmc + a.event.sdmmc == h.sdmmc + (a.event.sdmmc + t.pending.sdmmc);
      assert h.dma + t.pending.dma + a.event.dma == h.dma + (a.event.dma + t.pending.dma);
      MergeAssoc(h, d, left);
    }
  }

  // ---- response ----

  /** Which event first carried CMD_DONE. */
  function DoneAt(es: seq<Event>): (i: nat)
    requires INT_CMD_DONE in OrAll(es).sdmmc
    ensures i < |es| && INT_CMD_DONE in es[i].sdmmc
  {
    if INT_CMD_DONE in OrAll(es[..|es| - 1]).sdmmc then DoneAt(es[..|es| - 1]) else |es| - 1
  }

  /** What a command keeps of the response registers. */
  function Kept(c: Command, regs: Response, before: Response): Response {
    if SCF_RSP_PRESENT !in c.flags then before
    else if SCF_RSP_136 in c.flags then regs
    else Response(regs.r0, {}, {}, {})
  }

  lemma SettleKeepsResponse(c: Command, regs: Response, orig: Word, t: Txn)
    requires t.state == SendingData || t.state == Busy || t.state == Idle
    ensures Settle(c, regs, orig, t).response == t.response
    decreases Rank(t.state)
  {
    var t' := Visit(c, regs, orig, t);
    if !t'.halted && t'.state != t.state {
      SettleKeepsResponse(c, regs, orig, t');
    }
  }

  lemma DeliverResponse(c: Command, t: Txn, a: Arrival)
    requires t.state in {SendingCmd, SendingData, Busy}
    ensures t.state != SendingCmd ==> Deliver(c, t, a).response == t.response
    ensures t.state == SendingCmd && INT_CMD_DONE in Merge(a.event, t.pending).sdmmc ==>
      Deliver(c, t, a).response == Kept(c, a.regs, t.response)
  {
    var merged := Merge(a.event, t.pending);
    var start := t.(pending := merged);
    if t.state != SendingCmd {
      SettleKeepsResponse(c, a.regs, merged.sdmmc, start);
    } else if INT_CMD_DONE in merged.sdmmc {
      var t1 := Visit(c, a.regs, merged.sdmmc, start);
      SettleKeepsResponse(c, a.regs, merged.sdmmc, t1);
    }
  }

  /** The response of a command is what the registers held with the event that carried CMD_DONE. */
  lemma {:induction false} ResponseOfDone(c: Command, t0: Txn, hist: seq<Arrival>)
    requires c.opcode != SD_SWITCH_VOLTAGE && t0 == Start(c, t0.response, t0.dmaOn)
    requires Live(c, t0, hist) && INT_CMD_DONE in OrAll(Events(hist)).sdmmc
    ensures Run(c, t0, hist).response == Kept(c, hist[DoneAt(Events(hist))].regs, t0.response)
  {
    var front, a := hist[..|hist| - 1], hist[|hist| - 1];
    var t := Run(c, t0, front);
    LivePrefix(c, t0, front);
    EventsSnoc(hist);
    RunAgrees(c, t0, front);
    DeliverResponse(c, t, a);
    if t.state != SendingCmd {
      ResponseOfDone(c, t0, front);
    } else if SCF_RSP_PRESENT !in c.flags {
      QuietResponse(c, t0, front);
    }
  }

  lemma {:induction false} QuietResponse(c: Command, t0: Txn, hist: seq<Arrival>)
    requires SCF_RSP_PRESENT !in c.flags
    ensures Run(c, t0, hist).response == t0.response
  {
    if hist != [] {
      var front, a := hist[..|hist| - 1], hist[|hist| - 1];
      QuietResponse(c, t0, front);
      var t := Run(c, t0, front);
      var merged := Merge(a.event, t.pending);
      QuietSettle(c, a.regs, merged.sdmmc, t.(pending := merged));
    }
  }

  lemma QuietVisit(c: Command, regs: Response, orig: Word, t: Txn)
    requires SCF_RSP_PRESENT !in c.flags
    ensures Visit(c, regs, orig, t).response == t.response
  {
    match t.state {
      case Unset =>
      case Idle =>
      case SendingCmd =>
      case SendingData =>
      case Busy =>
      case SendingVoltageSwitch =>
      case WaitingVoltageSwitch =>
    }
  }

  lemma {:induction false} QuietSettle(c: Command, regs: Response, orig: Word, t: Txn)
    requires SCF_RSP_PRESENT !in c.flags
    ensures Settle(c, regs, orig, t).response == t.response
    decreases Rank(t.state)
  {
    var t' := Visit(c, regs, orig, t);
    QuietVisit(c, regs, orig, t);
    if !t'.halted && t'.state != t.state {
      QuietSettle(c, regs, orig, t');
    }
  }
}
