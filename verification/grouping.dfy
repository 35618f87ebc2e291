/**
 * How much it matters how the interrupt handler groups controller reports into events: any
 * regrouping of a finished run finishes too, with the same verdict unless the only error is a
 * command error reported after the command was done.
 */
module Grouping {
  import opened Common
  import opened Cmd
  import opened Transaction
  import opened History

  function Flat(gs: seq<seq<Event>>): seq<Event> {
    if gs == [] then [] else Flat(gs[..|gs| - 1]) + gs[|gs| - 1]
  }

  /** One event per group: the OR of the group. */
  function Coalesced(gs: seq<seq<Event>>): (es: seq<Event>)
    ensures |es| == |gs|
  {
    seq(|gs|, i requires 0 <= i < |gs| => OrAll(gs[i]))
  }

  /** `hist` delivers the events of `es` cut into non-empty groups, one event per group. */
  predicate Regroups(hist: seq<Arrival>, es: seq<Event>, gs: seq<seq<Event>>) {
    && Flat(gs) == es
    && (forall g :: g in gs ==> g != [])
    && Events(hist) == Coalesced(gs)
  }

  /** The only error on record is a command error reported after the command was done. */
  predicate LateCommandError(c: Command, es: seq<Event>) {
    && Qualifies(c, OrAll(es).sdmmc)
    && !Qualifies(c, Window(es).sdmmc)
    && !(c.hasData && Has(OrAll(es).sdmmc, DATA_ERR_MASK))
  }

  lemma CoalescedFront(gs: seq<seq<Event>>)
    requires gs != []
    ensures Coalesced(gs)[..|gs| - 1] == Coalesced(gs[..|gs| - 1])
    ensures Coalesced(gs) == Coalesced(gs[..|gs| - 1]) + [OrAll(gs[|gs| - 1])]
  {}

  lemma {:induction false} OrAllCoalesced(gs: seq<seq<Event>>)
    ensures OrAll(Coalesced(gs)) == OrAll(Flat(gs))
  {
    if gs != [] {
      var front, g := gs[..|gs| - 1], gs[|gs| - 1];
      OrAllCoalesced(front);
      CoalescedFront(gs);
      OrAllSnoc(Coalesced(front), OrAll(g));
      OrAllConcat(Flat(front), g);
    }
  }

  lemma {:induction false} FlatPrefix(gs: seq<seq<Event>>, m: nat)
    requires m <= |gs|
    ensures Flat(gs[..m]) <= Flat(gs)
  {
    if m == |gs| {
      assert gs[..m] == gs;
    } else {
      FlatPrefix(gs[..|gs| - 1], m);
      assert gs[..|gs| - 1][..m] == gs[..m];
    }
  }

  /** Grouping can only widen the window. */
  lemma {:induction false} WindowWidens(gs: seq<seq<Event>>)
    requires INT_CMD_DONE in OrAll(Flat(gs)).sdmmc
    ensures Within(Window(Flat(gs)), Window(Coalesced(gs)))
  {
    var front := gs[..|gs| - 1];
    CoalescedFront(gs);
    OrAllCoalesced(front);
    OrAllCoalesced(gs);
    if INT_CMD_DONE in OrAll(Flat(front)).sdmmc {
      WindowWidens(front);
      assert Flat(gs)[..|Flat(front)|] == Flat(front);
      WindowClosed(Flat(gs), |Flat(front)|);
    } else {
      WindowWithin(Flat(gs));
    }
  }

  lemma GroupedFinishes(c: Command, gs: seq<seq<Event>>)
    requires JustFinished(c, Flat(gs))
    requires forall g :: g in gs ==> g != []
    ensures StateOf(c, Coalesced(gs)) == Idle
  {
    var es := Flat(gs);
    OrAllCoalesced(gs);
    WindowWidens(gs);
    if SbeCaught(es) {
      var last := es[..|es| - 1];
      assert StateOf(c, last) != Idle;
      SbeNeedsDone(last);
      assert !Drained(last);
      var front := gs[..|gs| - 1];
      CoalescedFront(gs);
      OrAllCoalesced(front);
      assert gs[|gs| - 1] in gs;
      assert Flat(front) == last[..|Flat(front)|];
      OrAllPrefix(last, |Flat(front)|);
      assert Drained(Coalesced(front)) ==> Drained(last);
      SbeNeedsDone(es);
    }
  }

  /** The verdict comparison on bare words: `w` and `v` the two windows, `b` and `a` the two ORs. */
  lemma SameVerdict(c: Command, w: Word, v: Word, b: Word, a: Word)
    requires w <= v <= b <= a
    requires Qualifies(c, a) ==> Qualifies(c, w) || (c.hasData && Has(a, DATA_ERR_MASK))
    requires !c.hasData || Qualifies(c, v) || a <= b || INT_SBE in b
    ensures Qualifies(c, v) || (c.hasData && Has(b, DATA_ERR_MASK))
       <==> Qualifies(c, w) || (c.hasData && Has(a, DATA_ERR_MASK))
  {
    assert Qualifies(c, w) ==> Qualifies(c, v);
    assert Qualifies(c, v) ==> Qualifies(c, a);
    assert Has(b, DATA_ERR_MASK) ==> Has(a, DATA_ERR_MASK);
    assert INT_SBE in DATA_ERR_MASK;
  }

  /** Cutting off groups and coalescing narrows the OR, and can only widen the window. */
  lemma GroupedWords(gs: seq<seq<Event>>, m: nat) returns (i: nat)
    requires m <= |gs| && INT_CMD_DONE in OrAll(Coalesced(gs[..m])).sdmmc
    ensures i <= |Flat(gs)| && OrAll(Coalesced(gs[..m])) == OrAll(Flat(gs)[..i])
    ensures Within(Window(Flat(gs)), Window(Coalesced(gs[..m])))
    ensures Within(Window(Coalesced(gs[..m])), OrAll(Coalesced(gs[..m])))
    ensures Within(OrAll(Coalesced(gs[..m])), OrAll(Flat(gs)))
  {
    var es, pre := Flat(gs), gs[..m];
    i := |Flat(pre)|;
    FlatPrefix(gs, m);
    assert es[..i] == Flat(pre);
    OrAllCoalesced(pre);
    OrAllPrefix(es, i);
    WindowWithin(Coalesced(pre));
    WindowWidens(pre);
    WindowClosed(es, i);
  }

  lemma GroupedVerdict(c: Command, gs: seq<seq<Event>>, m: nat)
    requires JustFinished(c, Flat(gs))
    requires m <= |gs| && StateOf(c, Coalesced(gs[..m])) == Idle
    requires !LateCommandError(c, Flat(gs))
    ensures Failed(c, Coalesced(gs[..m])) <==> Failed(c, Flat(gs))
  {
    var es, cs := Flat(gs), Coalesced(gs[..m]);
    var i := GroupedWords(gs, m);
    SbeNeedsDone(cs);
    if INT_DATA_OVER in OrAll(cs).sdmmc {
      assert StateOf(c, es[..i]) == Idle;
      assert es[..i] == es;
    }
    SameVerdict(c, Window(es).sdmmc, Window(cs).sdmmc, OrAll(cs).sdmmc, OrAll(es).sdmmc);
  }

  lemma LateVerdict(c: Command, gs: seq<seq<Event>>, m: nat)
    requires JustFinished(c, Flat(gs)) && LateCommandError(c, Flat(gs))
    requires m <= |gs| && StateOf(c, Coalesced(gs[..m])) == Idle
    ensures Failed(c, Coalesced(gs[..m])) <==> Qualifies(c, Window(Coalesced(gs[..m])).sdmmc)
  {
    var i := GroupedWords(gs, m);
  }

  /** A regrouped run is decided by the first `m` groups, whose verdict is that of their ORs. */
  lemma RegroupedRun(c: Command, t0: Txn, hist: seq<Arrival>, hist': seq<Arrival>, gs: seq<seq<Event>>)
    returns (m: nat)
    requires c.opcode != SD_SWITCH_VOLTAGE && t0 == Start(c, t0.response, t0.dmaOn)
    requires Live(c, t0, hist) && Run(c, t0, hist).state == Idle
    requires Regroups(hist', Events(hist), gs)
    ensures JustFinished(c, Flat(gs)) && (Run(c, t0, hist).err.Some? <==> Failed(c, Events(hist)))
    ensures m <= |gs| == |Events(hist')| && Coalesced(gs[..m]) == Events(hist')[..m]
    ensures Run(c, t0, hist').state == Idle == StateOf(c, Events(hist')[..m])
    ensures Run(c, t0, hist').err.Some? <==> Failed(c, Events(hist')[..m])
  {
    Verdict(c, t0, hist);
    m := LiveCore(c, t0, hist');
    RunAgrees(c, t0, hist'[..m]);
    EventsPrefix(hist', m);
    assert Coalesced(gs)[..m] == Coalesced(gs[..m]);
    GroupedFinishes(c, gs);
    if m == |hist'| {
      assert gs[..m] == gs;
    }
  }

  /**
   * Grouping independence: when the reports of a finished run are cut into groups in any other
   * way, the regrouped run finishes as well and fails exactly if the first one did.
   */
  lemma GroupingIndependence(c: Command, t0: Txn, hist: seq<Arrival>, hist': seq<Arrival>, gs: seq<seq<Event>>)
    requires c.opcode != SD_SWITCH_VOLTAGE && t0 == Start(c, t0.response, t0.dmaOn)
    requires Live(c, t0, hist) && Run(c, t0, hist).state == Idle
    requires Regroups(hist', Events(hist), gs)
    requires !LateCommandError(c, Events(hist))
    ensures Run(c, t0, hist').state == Idle
    ensures Run(c, t0, hist').err.Some? <==> Run(c, t0, hist).err.Some?
  {
    var m := RegroupedRun(c, t0, hist, hist', gs);
    GroupedVerdict(c, gs, m);
  }

  /**
   * With a late command error the run succeeded, and a regrouped run fails exactly if a command
   * error now comes with CMD_DONE or before.
   */
  lemma LateRegrouped(c: Command, t0: Txn, hist: seq<Arrival>, hist': seq<Arrival>, gs: seq<seq<Event>>)
    requires c.opcode != SD_SWITCH_VOLTAGE && t0 == Start(c, t0.response, t0.dmaOn)
    requires Live(c, t0, hist) && Run(c, t0, hist).state == Idle
    requires Regroups(hist', Events(hist), gs)
    requires LateCommandError(c, Events(hist))
    ensures Run(c, t0, hist').state == Idle
    ensures Run(c, t0, hist).err.None?
    ensures Run(c, t0, hist').err.Some? <==> Qualifies(c, Window(Events(hist')).sdmmc)
  {
    var m := RegroupedRun(c, t0, hist, hist', gs);
    LateVerdict(c, gs, m);
    WindowClosed(Events(hist'), m);
  }

  /** For every regrouping of a finished run: the exact condition under which the verdict is the same. */
  lemma RegroupedVerdict(c: Command, t0: Txn, hist: seq<Arrival>, hist': seq<Arrival>, gs: seq<seq<Event>>)
    requires c.opcode != SD_SWITCH_VOLTAGE && t0 == Start(c, t0.response, t0.dmaOn)
    requires Live(c, t0, hist) && Run(c, t0, hist).state == Idle
    requires Regroups(hist', Events(hist), gs)
    ensures Run(c, t0, hist').state == Idle
    ensures (Run(c, t0, hist').err.Some? <==> Run(c, t0, hist).err.Some?)
       <==> !(LateCommandError(c, Events(hist)) && Qualifies(c, Window(Events(hist')).sdmmc))
  {
    if LateCommandError(c, Events(hist)) {
      LateRegrouped(c, t0, hist, hist', gs);
    } else {
      GroupingIndependence(c, t0, hist, hist', gs);
    }
  }

  /**
   * Delivering the whole history as one event always finishes the transaction, and gives the
   * same verdict if and only if there is no late command error.
   */
  lemma MergedVerdict(c: Command, t0: Txn, hist: seq<Arrival>, a: Arrival)
    requires c.opcode != SD_SWITCH_VOLTAGE && t0 == Start(c, t0.response, t0.dmaOn)
    requires Live(c, t0, hist) && Run(c, t0, hist).state == Idle
    requires a.event == OrAll(Events(hist))
    ensures Run(c, t0, [a]).state == Idle
    ensures (Run(c, t0, [a]).err.Some? <==> Run(c, t0, hist).err.Some?)
       <==> !LateCommandError(c, Events(hist))
  {
    var es := Events(hist);
    Verdict(c, t0, hist);
    assert hist != [];
    var gs := [es];
    assert Flat(gs) == es by {
      assert gs[..0] == [];
      assert Flat(gs[..0]) == [];
    }
    assert Events([a]) == Coalesced(gs) == [OrAll(es)];
    GroupedFinishes(c, gs);
    assert [a][..0] == [];
    RunAgrees(c, t0, [a]);
    OneEvent(OrAll(es));
    assert [OrAll(es)][..0] == [];
    assert Window([OrAll(es)]) == OrAll(es);
    WindowWithin(es);
  }

  lemma RunSnoc(c: Command, t0: Txn, hist: seq<Arrival>, a: Arrival)
    requires Listening(Run(c, t0, hist))
    ensures Run(c, t0, hist + [a]) == Deliver(c, Run(c, t0, hist), a)
  {
    assert (hist + [a])[..|hist|] == hist;
  }

  /** A late command error exists: unnoticed when reported apart, fatal when reported together. */
  lemma LateErrorExample(c: Command, t0: Txn, r: Response)
    requires c.opcode != SD_SWITCH_VOLTAGE && c.hasData && t0 == Start(c, t0.response, t0.dmaOn)
    ensures
      var done, late, over := Event({INT_CMD_DONE}, {}), Event({INT_RTO}, {}), Event({INT_DATA_OVER}, {});
      var apart := Run(c, t0, [Arrival(done, r), Arrival(late, r), Arrival(over, r)]);
      var together := Run(c, t0, [Arrival(Merge(Merge(done, late), over), r)]);
      apart.state == Idle && apart.err.None? && together.state == Idle && together.err.Some?
  {
    var done, late, over := Event({INT_CMD_DONE}, {}), Event({INT_RTO}, {}), Event({INT_DATA_OVER}, {});
    var a1, a2, a3 := Arrival(done, r), Arrival(late, r), Arrival(over, r);
    var t1, t2, t3 := LateErrorSteps(c, t0, r);
    RunSnoc(c, t0, [], a1);
    RunSnoc(c, t0, [a1], a2);
    RunSnoc(c, t0, [a1, a2], a3);
    assert [] + [a1] == [a1] && [a1] + [a2] == [a1, a2] && [a1, a2] + [a3] == [a1, a2, a3];
    var one := Arrival(Merge(Merge(done, late), over), r);
    RunSnoc(c, t0, [], one);
    assert [] + [one] == [one];
    DeliverSendingCmd(c, t0, one);
    assert INT_RTO in Merge(one.event, NO_EVENT).sdmmc && INT_CMD_DONE in Merge(one.event, NO_EVENT).sdmmc;
  }

  lemma LateErrorSteps(c: Command, t0: Txn, r: Response) returns (t1: Txn, t2: Txn, t3: Txn)
    requires c.opcode != SD_SWITCH_VOLTAGE && c.hasData && t0 == Start(c, t0.response, t0.dmaOn)
    ensures t1 == Deliver(c, t0, Arrival(Event({INT_CMD_DONE}, {}), r)) && Listening(t1)
    ensures t2 == Deliver(c, t1, Arrival(Event({INT_RTO}, {}), r)) && Listening(t2)
    ensures t3 == Deliver(c, t2, Arrival(Event({INT_DATA_OVER}, {}), r)) && t3.state == Idle && t3.err.None?
  {
    var a1 := Arrival(Event({INT_CMD_DONE}, {}), r);
    var a2 := Arrival(Event({INT_RTO}, {}), r);
    var a3 := Arrival(Event({INT_DATA_OVER}, {}), r);
    t1 := Deliver(c, t0, a1);
    DeliverSendingCmd(c, t0, a1);
    assert Merge(a1.event, NO_EVENT) == a1.event;
    assert t1.pending.sdmmc <= {} && t1.pending.dma <= {};
    t2 := Deliver(c, t1, a2);
    DeliverSendingData(c, t1, a2);
    assert Merge(a2.event, t1.pending) == a2.event;
    assert t2.pending.sdmmc <= {INT_RTO} && t2.pending.dma <= {};
    t3 := Deliver(c, t2, a3);
    DeliverSendingData(c, t2, a3);
  }
}
