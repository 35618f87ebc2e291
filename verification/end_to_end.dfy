/**
 * From the hardware to the verdict: what a transaction concludes from the events it receives,
 * told from what the controller raised and in what order, whatever the interleaving of
 * hardware, handler, queue and consumer.
 */
module EndToEnd {
  import opened Common
  import opened Cmd
  import opened Transaction
  import opened History
  import opened Grouping
  import opened Runs
  import opened Inter

  // ---- the window survives the handler ----

  /**
   * The bits `w` are enqueued before CMD_DONE or with it: once CMD_DONE is enqueued, and while
   * the handler holds it to enqueue it for the first time.
   */
  predicate Kept(w: Word, sent: seq<Event>, held: Event) {
    if INT_CMD_DONE in OrAll(sent).sdmmc then w <= Window(sent).sdmmc
    else INT_CMD_DONE in held.sdmmc ==> w <= OrAll(sent).sdmmc + held.sdmmc
  }

  /** What was visibly raised before CMD_DONE or with it. */
  function RaisedWindow(s: Irq): Word { Visible(s.mask, Window(RaisedEvents(s.raised))).sdmmc }

  predicate WindowKept(s: Irq) { Kept(RaisedWindow(s), s.sent, Local(s.isr)) }

  lemma RaiseKeepsWindow(s: Irq, e: Event)
    requires Inv(s) && WindowKept(s)
    ensures WindowKept(Apply(s, HwRaise(e)))
  {
    var es := RaisedEvents(s.raised);
    RaisedSnoc(s.raised, Raise(e, |s.sent|));
    assert (es + [e])[..|es|] == es;
    assert INT_CMD_DONE in OrAll(es).sdmmc ==> Window(es + [e]) == Window(es);
  }

  lemma ReadKeepsWindow(s: Irq)
    requires Inv(s) && WindowKept(s)
    ensures WindowKept(Apply(s, IsrRead))
  {
    if Enabled(s, IsrRead) {
      AllCarried(s);
      WindowWithin(RaisedEvents(s.raised));
      VisibleMonotone(s.mask, Window(RaisedEvents(s.raised)), OrAll(RaisedEvents(s.raised)));
    }
  }

  lemma AppendKeeps(w: Word, sent: seq<Event>, e: Event)
    requires Kept(w, sent, e)
    ensures Kept(w, sent + [e], NO_EVENT)
  {
    OrAllSnoc(sent, e);
    assert (sent + [e])[..|sent|] == sent;
  }

  lemma SendKeepsWindow(s: Irq)
    requires WindowKept(s)
    ensures WindowKept(Apply(s, IsrSend))
  {
    SendEffect(s);
    var s' := Apply(s, IsrSend);
    assert RaisedWindow(s') == RaisedWindow(s);
    if s'.sent != s.sent {
      AppendKeeps(RaisedWindow(s), s.sent, Local(s.isr));
    }
  }

  lemma InnerKeepsWindow(s: Irq, step: Step)
    requires WindowKept(s) && !step.HwRaise? && !step.IsrRead? && !step.IsrSend?
    ensures WindowKept(Apply(s, step))
  {
    var s' := Apply(s, step);
    MaskLow(s, step);
    assert s'.raised == s.raised && s'.sent == s.sent;
    assert Local(s'.isr).sdmmc == Local(s.isr).sdmmc;
  }

  lemma StepKeepsWindow(s: Irq, step: Step)
    requires Inv(s) && WindowKept(s)
    ensures WindowKept(Apply(s, step))
  {
    match step {
      case HwRaise(e) => RaiseKeepsWindow(s, e);
      case IsrRead => ReadKeepsWindow(s);
      case IsrSend => SendKeepsWindow(s);
      case _ => InnerKeepsWindow(s, step);
    }
  }

  lemma {:induction false} ExecKeepsWindow(s: Irq, steps: seq<Step>)
    requires Inv(s) && WindowKept(s)
    ensures WindowKept(Exec(s, steps))
  {
    if steps != [] {
      var front := steps[..|steps| - 1];
      ExecKeepsWindow(s, front);
      ExecKeeps(s, front);
      StepKeepsWindow(Exec(s, front), steps[|steps| - 1]);
    }
  }

  /** An event in front that does not carry CMD_DONE only adds to the window. */
  lemma {:induction false} WindowBehind(e: Event, es: seq<Event>)
    requires INT_CMD_DONE !in e.sdmmc
    ensures Within(Window(es), Window([e] + es))
  {
    OneEvent(e);
    OrAllConcat([e], es);
    if es != [] {
      var front := es[..|es| - 1];
      WindowBehind(e, front);
      OrAllConcat([e], front);
      assert ([e] + es)[..|es|] == [e] + front;
      WindowWithin(es);
    }
  }

  // ---- what a transaction makes of what was raised ----

  /** A state reached from reset under the default interrupt mask. */
  function Reached(before: seq<Step>): Irq { Exec(Init(EVENT_DEFAULT), before) }

  /** The default mask enables every controller bit the event machine acts on. */
  lemma DefaultEnables(before: seq<Step>)
    ensures Inv(Reached(before))
    ensures ACTED_ON <= Reached(before).mask * LOW
  {
    InitInv(EVENT_DEFAULT);
    ExecKeeps(Init(EVENT_DEFAULT), before);
    assert ACTED_ON <= EVENT_DEFAULT && ACTED_ON <= LOW;
  }

  /** `hist` delivers what was received between two quiet points of an execution. */
  predicate Between(before: seq<Step>, steps: seq<Step>, hist: seq<Arrival>) {
    var s, s' := Reached(before), Exec(Reached(before), steps);
    && Quiescent(s) && Quiescent(s')
    && |s.received| <= |s'.received| && |s.raised| <= |s'.raised|
    && Events(hist) == ReceivedSince(s, s')
  }

  function RaisedBetween(before: seq<Step>, steps: seq<Step>): seq<Event>
    requires |Reached(before).raised| <= |Exec(Reached(before), steps).raised|
  {
    RaisedSince(Reached(before), Exec(Reached(before), steps))
  }

  /** The default mask hides no bit the event machine acts on: between quiet points they all arrive. */
  lemma DefaultShowsAll(before: seq<Step>, steps: seq<Step>, hist: seq<Arrival>)
    requires Between(before, steps, hist)
    ensures var got, all := OrAll(Events(hist)), OrAll(RaisedBetween(before, steps));
      && got.sdmmc <= all.sdmmc && got.dma == all.dma
      && forall b :: b in ACTED_ON ==> (b in got.sdmmc <==> b in all.sdmmc)
  {
    DefaultEnables(before);
    QuietDelivery(Reached(before), steps);
  }

  /**
   * What was raised before CMD_DONE or with it is received before CMD_DONE or with it, as far as
   * the machine acts on it. The converse fails: the handler may pick up later reports as well,
   * as in the interleaving TOGETHER of RaceExample.
   */
  lemma WindowArrives(before: seq<Step>, steps: seq<Step>, hist: seq<Arrival>)
    requires Between(before, steps, hist) && INT_CMD_DONE in OrAll(Events(hist)).sdmmc
    ensures Window(RaisedBetween(before, steps)).sdmmc * ACTED_ON <= Window(Events(hist)).sdmmc
  {
    var s := Reached(before);
    DefaultEnables(before);
    var alone := StretchAlone(s, steps);
    RestartInv(s);
    ExecKeepsWindow(Restart(s), steps);
    QuietTold(alone);
    WindowBehind(Event(s.raw, {}), RaisedBetween(before, steps));
    ActedOnVisible(alone.mask, Window(RaisedEvents(alone.raised)));
  }

  lemma ActedOnVisible(mask: Word, e: Event)
    requires ACTED_ON <= mask * LOW
    ensures e.sdmmc * ACTED_ON <= Visible(mask, e).sdmmc
  {}

  lemma SameErrors(c: Command, a: Word, b: Word)
    requires a * ACTED_ON <= b
    ensures Qualifies(c, a) ==> Qualifies(c, b)
    ensures Has(a, DATA_ERR_MASK) ==> Has(b, DATA_ERR_MASK)
  {
    assert INT_RTO in ACTED_ON && INT_RCRC in ACTED_ON && INT_RESP_ERR in ACTED_ON;
    assert DATA_ERR_MASK <= ACTED_ON;
  }

  /**
   * Between any two quiet points of any execution, a transaction that finished on the events it
   * received failed exactly if what the controller raised, in the order it raised it, is a
   * failure. Only if the sole error raised is a command error after CMD_DONE does the
   * interleaving decide: it is noticed iff it was received with CMD_DONE.
   */
  lemma RaisedVerdict(before: seq<Step>, steps: seq<Step>, c: Command, t0: Txn, hist: seq<Arrival>)
    requires Between(before, steps, hist)
    requires c.opcode != SD_SWITCH_VOLTAGE && t0 == Start(c, t0.response, t0.dmaOn)
    requires Live(c, t0, hist) && Run(c, t0, hist).state == Idle
    ensures var raised := RaisedBetween(before, steps);
      && (!LateCommandError(c, raised) ==> (Run(c, t0, hist).err.Some? <==> Failed(c, raised)))
      && (LateCommandError(c, raised) ==>
           (Run(c, t0, hist).err.Some? <==> Qualifies(c, Window(Events(hist)).sdmmc)))
  {
    var es, raised := Events(hist), RaisedBetween(before, steps);
    Verdict(c, t0, hist);
    DefaultShowsAll(before, steps, hist);
    SameErrors(c, OrAll(es).sdmmc, OrAll(raised).sdmmc);
    SameErrors(c, OrAll(raised).sdmmc, OrAll(es).sdmmc);
    WindowArrives(before, steps, hist);
    SameErrors(c, Window(raised).sdmmc, Window(es).sdmmc);
    WindowWithin(es);
    assert Qualifies(c, Window(es).sdmmc) ==> Qualifies(c, OrAll(es).sdmmc);
  }

  /**
   * Between any two quiet points: if the controller raised no error that counts, the transaction
   * has not failed, and it has finished exactly if command and data were raised as done.
   */
  lemma RaisedCompletion(before: seq<Step>, steps: seq<Step>, c: Command, t0: Txn, hist: seq<Arrival>)
    requires Between(before, steps, hist)
    requires c.opcode != SD_SWITCH_VOLTAGE && t0 == Start(c, t0.response, t0.dmaOn)
    requires Clean(c, RaisedBetween(before, steps))
    ensures Run(c, t0, hist).err.None?
    ensures var all := OrAll(RaisedBetween(before, steps)).sdmmc;
      Run(c, t0, hist).state == Idle <==> INT_CMD_DONE in all && (c.hasData ==> INT_DATA_OVER in all)
  {
    DefaultShowsAll(before, steps, hist);
    SameErrors(c, OrAll(Events(hist)).sdmmc, OrAll(RaisedBetween(before, steps)).sdmmc);
    CleanCompletion(c, t0, hist);
    assert INT_CMD_DONE in ACTED_ON && INT_DATA_OVER in ACTED_ON;
  }

  /**
   * Between any two quiet points, whatever errors the controller raised: the transaction has
   * ended if command and data were raised as done.
   */
  lemma RaisedEnds(before: seq<Step>, steps: seq<Step>, c: Command, t0: Txn, hist: seq<Arrival>)
    requires Between(before, steps, hist)
    requires c.opcode != SD_SWITCH_VOLTAGE && t0 == Start(c, t0.response, t0.dmaOn)
    ensures Complete(c, RaisedBetween(before, steps)) ==> Run(c, t0, hist).state == Idle
  {
    DefaultShowsAll(before, steps, hist);
    assert INT_CMD_DONE in ACTED_ON && INT_DATA_OVER in ACTED_ON;
    if Complete(c, Events(hist)) {
      CompleteEnds(c, t0, hist);
    }
  }

  // ---- an interleaving that decides ----

  const READ_ACK: seq<Step> := [IsrRead, IsrAck, IsrDmaRead, IsrDmaAck]
  const SEND_RECEIVE: seq<Step> := [IsrSend, IsrSdio, Receive]

  /** The handler runs once and the consumer takes what it enqueued. */
  const PASS: seq<Step> := READ_ACK + SEND_RECEIVE

  /** Nothing is pending anywhere. */
  predicate Blank(s: Irq) { s.raw == {} == s.idsts && s.isr.Resting? && s.queue == [] && !s.panicked }

  /** The same state after one more event has been raised and passed on. */
  function Passed(s: Irq, rs: seq<Raise>, e: Event): Irq {
    s.(raised := s.raised + rs, sent := s.sent + [e], received := s.received + [e])
  }

  lemma ReadAckAlone(s: Irq)
    requires s.isr.Resting? && !s.panicked
    ensures var p := s.raw * s.mask * LOW;
      Exec(s, READ_ACK) == s.(raw := s.raw - p, idsts := {}, isr := DmaAcked(p, s.idsts))
  {
    ExecCons(s, READ_ACK);
    var s1 := Apply(s, IsrRead);
    ExecCons(s1, READ_ACK[1..]);
    var s2 := Apply(s1, IsrAck);
    ExecCons(s2, READ_ACK[2..]);
    var s3 := Apply(s2, IsrDmaRead);
    ExecCons(s3, READ_ACK[3..]);
    assert s.idsts - s.idsts == {};
  }

  lemma SendSdio(s: Irq, e: Event)
    requires !s.panicked && s.isr == DmaAcked(e.sdmmc, e.dma) && e != NO_EVENT && s.queue == [] && s.raw == {}
    ensures Apply(Apply(s, IsrSend), IsrSdio) == s.(isr := Resting, sent := s.sent + [e], queue := [e])
  {
    var s1 := Apply(s, IsrSend);
    assert s1.raw * s1.mask * SDIO == {};
  }

  lemma SendReceiveAlone(s: Irq, e: Event)
    requires !s.panicked && s.isr == DmaAcked(e.sdmmc, e.dma) && e != NO_EVENT && s.queue == [] && s.raw == {}
    ensures Exec(s, SEND_RECEIVE) == s.(isr := Resting, sent := s.sent + [e], received := s.received + [e])
  {
    var s1 := Apply(s, IsrSend);
    var s2 := Apply(s1, IsrSdio);
    SendSdio(s, e);
    ExecCons(s, SEND_RECEIVE);
    ExecCons(s1, SEND_RECEIVE[1..]);
    ExecCons(s2, SEND_RECEIVE[2..]);
    assert Exec(s, SEND_RECEIVE) == Apply(s2, Receive);
  }

  /** After some raises a pass of handler and consumer hands their OR over as one event. */
  lemma OnePass(s: Irq, rs: seq<Raise>, e: Event)
    requires Blank(s) && e.sdmmc <= s.mask * LOW && e != NO_EVENT
    ensures var s0 := s.(raw := e.sdmmc, idsts := e.dma, raised := s.raised + rs);
      Exec(s0, PASS) == Passed(s, rs, e)
  {
    var s0 := s.(raw := e.sdmmc, idsts := e.dma, raised := s.raised + rs);
    assert e.sdmmc * s.mask * LOW == e.sdmmc;
    ExecConcat(s0, READ_ACK, SEND_RECEIVE);
    ReadAckAlone(s0);
    assert s0.raw - e.sdmmc == {};
    SendReceiveAlone(Exec(s0, READ_ACK), e);
  }

  /** One raise and one pass. */
  lemma RaisePass(s: Irq, e: Event)
    requires Blank(s) && e.sdmmc <= s.mask * LOW && e != NO_EVENT
    ensures Exec(s, [HwRaise(e)] + PASS) == Passed(s, [Raise(e, |s.sent|)], e)
  {
    ExecCons(s, [HwRaise(e)] + PASS);
    assert ([HwRaise(e)] + PASS)[1..] == PASS;
    assert s.raw + e.sdmmc == e.sdmmc && s.idsts + e.dma == e.dma;
    OnePass(s, [Raise(e, |s.sent|)], e);
  }

  const DONE: Event := Event({INT_CMD_DONE}, {})
  const LATE: Event := Event({INT_RTO}, {})
  const OVER: Event := Event({INT_DATA_OVER}, {})

  /** A pass after every raise, and one pass after all three. */
  const APART: seq<Step> := [HwRaise(DONE)] + PASS + ([HwRaise(LATE)] + PASS) + ([HwRaise(OVER)] + PASS)
  const TOGETHER: seq<Step> := [HwRaise(DONE), HwRaise(LATE), HwRaise(OVER)] + PASS

  lemma RunApart() returns (s: Irq)
    ensures s == Exec(Init(EVENT_DEFAULT), APART) && Blank(s)
    ensures RaisedEvents(s.raised) == s.received == [DONE, LATE, OVER]
  {
    var s0 := Init(EVENT_DEFAULT);
    assert INT_CMD_DONE in LOW && INT_RTO in LOW && INT_DATA_OVER in LOW;
    RaisePass(s0, DONE);
    var s1 := Passed(s0, [Raise(DONE, 0)], DONE);
    RaisePass(s1, LATE);
    var s2 := Passed(s1, [Raise(LATE, 1)], LATE);
    RaisePass(s2, OVER);
    s := Passed(s2, [Raise(OVER, 2)], OVER);
    ExecConcat(s0, [HwRaise(DONE)] + PASS, [HwRaise(LATE)] + PASS);
    ExecConcat(s0, [HwRaise(DONE)] + PASS + ([HwRaise(LATE)] + PASS), [HwRaise(OVER)] + PASS);
  }

  lemma RunTogether() returns (s: Irq)
    ensures s == Exec(Init(EVENT_DEFAULT), TOGETHER) && Blank(s)
    ensures RaisedEvents(s.raised) == [DONE, LATE, OVER] && s.received == [Merge(Merge(DONE, LATE), OVER)]
  {
    var s0 := Init(EVENT_DEFAULT);
    assert INT_CMD_DONE in LOW && INT_RTO in LOW && INT_DATA_OVER in LOW;
    var rs, e := [Raise(DONE, 0), Raise(LATE, 0), Raise(OVER, 0)], Merge(Merge(DONE, LATE), OVER);
    ExecCons(s0, TOGETHER);
    var s1 := Apply(s0, HwRaise(DONE));
    ExecCons(s1, TOGETHER[1..]);
    var s2 := Apply(s1, HwRaise(LATE));
    ExecCons(s2, TOGETHER[2..]);
    var s3 := Apply(s2, HwRaise(OVER));
    assert TOGETHER[3..] == PASS;
    assert s3 == s0.(raw := e.sdmmc, idsts := e.dma, raised := s0.raised + rs);
    OnePass(s0, rs, e);
    s := Passed(s0, rs, e);
  }

  /**
   * The exception is real: the same three raises in the same order, delivered completely either
   * way, and one interleaving ends without error, the other with one.
   */
  lemma RaceExample(c: Command, t0: Txn, r: Response) returns (h: seq<Arrival>, h': seq<Arrival>)
    requires c.opcode != SD_SWITCH_VOLTAGE && c.hasData && t0 == Start(c, t0.response, t0.dmaOn)
    ensures var apart, together := Exec(Init(EVENT_DEFAULT), APART), Exec(Init(EVENT_DEFAULT), TOGETHER);
      && Quiescent(apart) && Quiescent(together) && RaisedEvents(apart.raised) == RaisedEvents(together.raised)
      && Events(h) == apart.received && Events(h') == together.received
    ensures Run(c, t0, h).state == Idle && Run(c, t0, h).err.None?
    ensures Run(c, t0, h').state == Idle && Run(c, t0, h').err.Some?
  {
    var a := RunApart();
    var b := RunTogether();
    LateErrorExample(c, t0, r);
    h := [Arrival(DONE, r), Arrival(LATE, r), Arrival(OVER, r)];
    h' := [Arrival(Merge(Merge(DONE, LATE), OVER), r)];
    assert Events(h) == a.received && Events(h') == b.received;
  }
}
