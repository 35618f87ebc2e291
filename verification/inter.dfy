/**
 * The interrupt handler, the event queue and their consumer as interleaved atomic steps
 * (inter::handler and EVENT_QUEUE in src/lib.rs, wait_for_event in src/sdmmc_sd.rs). The
 * hardware may raise bits between any two steps.
 */
module Inter {
  import opened Common

  /** Capacity of EVENT_QUEUE. */
  const CAPACITY: nat := 32

  const LOW: Word := set b: Bit | 0 <= b < 16 :: b
  const SDIO: Word := {16, 17}

  /** Interrupts enabled by init (SDMMC_LL_EVENT_DEFAULT). */
  const EVENT_DEFAULT: Word := {0, 1, 2, 3, 6, 7, 8, 9, 10, 12, 13, 15}

  /** Where the handler stands, with its local copies of the status words. */
  datatype Isr =
    | Resting
    | Read(pending: Word)
    | Acked(pending: Word)
    | DmaRead(pending: Word, dma: Word)
    | DmaAcked(pending: Word, dma: Word)
    | Sent

  /** A report by the hardware, stamped with the number of events enqueued before it. */
  datatype Raise = Raise(event: Event, at: nat)

  /**
   * The status registers, the handler, the queue, and the histories of what was raised,
   * enqueued and received.
   */
  datatype Irq = Irq(
    raw: Word,
    mask: Word,
    idsts: Word,
    isr: Isr,
    queue: seq<Event>,
    panicked: bool,
    released: nat,
    raised: seq<Raise>,
    sent: seq<Event>,
    received: seq<Event>)

  datatype Step = HwRaise(event: Event) | IsrRead | IsrAck | IsrDmaRead | IsrDmaAck | IsrSend | IsrSdio | Receive

  function Init(mask: Word): Irq { Irq({}, mask, {}, Resting, [], false, 0, [], [], []) }

  predicate Enabled(s: Irq, step: Step) {
    match step
    case HwRaise(_) => true
    case IsrRead => !s.panicked && s.isr.Resting?
    case IsrAck => !s.panicked && s.isr.Read?
    case IsrDmaRead => !s.panicked && s.isr.Acked?
    case IsrDmaAck => !s.panicked && s.isr.DmaRead?
    case IsrSend => !s.panicked && s.isr.DmaAcked?
    case IsrSdio => !s.panicked && s.isr.Sent?
    case Receive => !s.panicked && s.queue != []
  }

  /** The effect of a step; a step that is not enabled does nothing. */
  function Apply(s: Irq, step: Step): Irq {
    if !Enabled(s, step) then s
    else
      match step
      case HwRaise(e) =>
        s.(raw := s.raw + e.sdmmc, idsts := s.idsts + e.dma, raised := s.raised + [Raise(e, |s.sent|)])
      case IsrRead => s.(isr := Read(s.raw * s.mask * LOW))
      case IsrAck => s.(raw := s.raw - s.isr.pending, isr := Acked(s.isr.pending))
      case IsrDmaRead => s.(isr := DmaRead(s.isr.pending, s.idsts))
      case IsrDmaAck => s.(idsts := s.idsts - s.isr.dma, isr := DmaAcked(s.isr.pending, s.isr.dma))
      case IsrSend =>
        var e := Event(s.isr.pending, s.isr.dma);
        if e == NO_EVENT then s.(isr := Sent)
        else if |s.queue| < CAPACITY then s.(queue := s.queue + [e], sent := s.sent + [e], isr := Sent)
        else s.(panicked := true)
      case IsrSdio =>
        var sdio := s.raw * s.mask * SDIO;
        if sdio == {} then s.(isr := Resting)
        else s.(mask := s.mask - sdio, released := s.released + 1, isr := Resting)
      case Receive => s.(received := s.received + [s.queue[0]], queue := s.queue[1..])
  }

  function Exec(s: Irq, steps: seq<Step>): Irq {
    if steps == [] then s else Apply(Exec(s, steps[..|steps| - 1]), steps[|steps| - 1])
  }

  /** The part of a report the handler can see: the enabled low controller bits and all DMA bits. */
  function Visible(mask: Word, e: Event): Event { Event(e.sdmmc * mask * LOW, e.dma) }

  /** What the handler holds and has not enqueued yet. */
  function Local(isr: Isr): Event {
    match isr
    case Resting => NO_EVENT
    case Read(p) => Event(p, {})
    case Acked(p) => Event(p, {})
    case DmaRead(p, d) => Event(p, d)
    case DmaAcked(p, d) => Event(p, d)
    case Sent => NO_EVENT
  }

  /** Everything that may still report `r`: the registers, the handler, and the events enqueued since. */
  function Carriers(s: Irq, at: nat): Event
    requires at <= |s.sent|
  {
    Merge(Merge(Event(s.raw, s.idsts), Local(s.isr)), OrAll(s.sent[at..]))
  }

  function RaisedEvents(rs: seq<Raise>): (es: seq<Event>)
    ensures |es| == |rs|
  {
    seq(|rs|, i requires 0 <= i < |rs| => rs[i].event)
  }

  /** The queue hands over exactly what was enqueued, in order, and never holds more than its capacity. */
  predicate Fifo(s: Irq) { s.sent == s.received + s.queue && |s.queue| <= 32 }

  /** Each visible raised bit is in a register, in the handler, or in an event enqueued after the raise. */
  predicate NothingLost(s: Irq) {
    forall i :: 0 <= i < |s.raised| ==>
      s.raised[i].at <= |s.sent| && Within(Visible(s.mask, s.raised[i].event), Carriers(s, s.raised[i].at))
  }

  /** Registers, handler and events hold only bits that were raised, the latter two only visible ones. */
  predicate NothingInvented(s: Irq) {
    var all := OrAll(RaisedEvents(s.raised));
    && Within(Event(s.raw, s.idsts), all)
    && Within(Local(s.isr), Visible(s.mask, all))
    && Within(OrAll(s.sent), Visible(s.mask, all))
  }

  /** The two status words of an event. */
  datatype Line = Controller | Dma

  function On(l: Line, e: Event): Word { if l.Controller? then e.sdmmc else e.dma }

  /** How many events of a history carry a bit. */
  function Count(es: seq<Event>, l: Line, b: Bit): nat {
    if es == [] then 0 else Count(es[..|es| - 1], l, b) + if b in On(l, es[|es| - 1]) then 1 else 0
  }

  /** The handler has read this word and not yet acknowledged it. */
  predicate Unacknowledged(isr: Isr, l: Line) { if l.Controller? then isr.Read? else isr.DmaRead? }

  /** How many reports of a bit are on their way: in the register, and taken out of it but not enqueued. */
  function InFlight(s: Irq, l: Line, b: Bit): nat {
    (if b in On(l, Event(s.raw, s.idsts)) then 1 else 0)
    + (if b in On(l, Local(s.isr)) && !Unacknowledged(s.isr, l) then 1 else 0)
  }

  /** A bit of either word is enqueued at most once per raise. */
  predicate NothingRepeated(s: Irq) {
    forall l: Line, b: Bit :: Balanced(s, l, b)
  }

  /** The balance of enqueued, travelling and raised reports of one bit. */
  predicate Balanced(s: Irq, l: Line, b: Bit) {
    Count(s.sent, l, b) + InFlight(s, l, b) <= Count(RaisedEvents(s.raised), l, b)
  }

  predicate HandlerConsistent(s: Irq) {
    match s.isr
    case Read(p) => p <= s.raw
    case DmaRead(p, d) => d <= s.idsts
    case _ => true
  }

  predicate Inv(s: Irq) {
    && Fifo(s) && NothingLost(s) && NothingInvented(s) && NothingRepeated(s) && HandlerConsistent(s)
  }

  lemma CountSnoc(es: seq<Event>, e: Event, l: Line, b: Bit)
    ensures Count(es + [e], l, b) == Count(es, l, b) + if b in On(l, e) then 1 else 0
  {
    assert (es + [e])[..|es|] == es;
  }

  lemma RaisedSnoc(rs: seq<Raise>, r: Raise)
    ensures RaisedEvents(rs + [r]) == RaisedEvents(rs) + [r.event]
  {}

  lemma MaskLow(s: Irq, step: Step)
    ensures Apply(s, step).mask * LOW == s.mask * LOW
    ensures forall e :: Visible(Apply(s, step).mask, e) == Visible(s.mask, e)
  {
    assert SDIO !! LOW;
    forall e ensures Visible(Apply(s, step).mask, e) == Visible(s.mask, e) {
      assert e.sdmmc * Apply(s, step).mask * LOW == e.sdmmc * (Apply(s, step).mask * LOW);
      assert e.sdmmc * s.mask * LOW == e.sdmmc * (s.mask * LOW);
    }
  }

  lemma StepFifo(s: Irq, step: Step)
    requires Fifo(s)
    ensures Fifo(Apply(s, step))
  {
    if step.Receive? && Enabled(s, step) {
      assert s.queue == [s.queue[0]] + s.queue[1..];
    }
  }

  /** The carriers of a raise never lose a visible bit in a step. */
  lemma StepCarriers(s: Irq, step: Step, at: nat)
    requires HandlerConsistent(s) && at <= |s.sent|
    ensures at <= |Apply(s, step).sent| && Within(Carriers(s, at), Carriers(Apply(s, step), at))
  {
    var s' := Apply(s, step);
    if step.IsrSend? && s'.sent != s.sent {
      var e := Event(s.isr.pending, s.isr.dma);
      assert s'.sent[at..] == s.sent[at..] + [e];
      OrAllSnoc(s.sent[at..], e);
    }
  }

  lemma StepLost(s: Irq, step: Step)
    requires NothingLost(s) && HandlerConsistent(s)
    ensures NothingLost(Apply(s, step))
  {
    var s' := Apply(s, step);
    MaskLow(s, step);
    forall i | 0 <= i < |s'.raised|
      ensures s'.raised[i].at <= |s'.sent|
      ensures Within(Visible(s'.mask, s'.raised[i].event), Carriers(s', s'.raised[i].at))
    {
      if i < |s.raised| {
        StepCarriers(s, step, s.raised[i].at);
      }
    }
  }

  lemma VisibleMonotone(mask: Word, a: Event, b: Event)
    requires Within(a, b)
    ensures Within(Visible(mask, a), Visible(mask, b))
  {}

  lemma RaiseInvented(s: Irq, e: Event)
    requires NothingInvented(s)
    ensures NothingInvented(Apply(s, HwRaise(e)))
  {
    var all := OrAll(RaisedEvents(s.raised));
    RaisedSnoc(s.raised, Raise(e, |s.sent|));
    OrAllSnoc(RaisedEvents(s.raised), e);
    VisibleMonotone(s.mask, all, Merge(all, e));
  }

  lemma SendInvented(s: Irq)
    requires NothingInvented(s)
    ensures NothingInvented(Apply(s, IsrSend))
  {
    var s' := Apply(s, IsrSend);
    SendEffect(s);
    if s'.sent != s.sent {
      OrAllSnoc(s.sent, Local(s.isr));
    }
    assert Within(OrAll(s'.sent), Merge(OrAll(s.sent), Local(s.isr)));
  }

  /** The other steps raise nothing and enqueue nothing. */
  lemma InnerInvented(s: Irq, step: Step)
    requires NothingInvented(s) && !step.HwRaise? && !step.IsrSend?
    ensures NothingInvented(Apply(s, step))
  {
    var s' := Apply(s, step);
    MaskLow(s, step);
    assert s'.raised == s.raised && s'.sent == s.sent;
    assert s'.raw <= s.raw && s'.idsts <= s.idsts;
  }

  lemma StepInvented(s: Irq, step: Step)
    requires NothingInvented(s)
    ensures NothingInvented(Apply(s, step))
  {
    match step {
      case HwRaise(e) => RaiseInvented(s, e);
      case IsrSend => SendInvented(s);
      case _ => InnerInvented(s, step);
    }
  }

  lemma RaiseBalanced(s: Irq, e: Event, l: Line, b: Bit)
    requires Balanced(s, l, b)
    ensures Balanced(Apply(s, HwRaise(e)), l, b)
  {
    RaisedSnoc(s.raised, Raise(e, |s.sent|));
    CountSnoc(RaisedEvents(s.raised), e, l, b);
  }

  /** What the handler holds it keeps, or drops if it is nothing, or enqueues. */
  lemma SendEffect(s: Irq)
    ensures var s' := Apply(s, IsrSend);
      && s' == s.(isr := s'.isr, queue := s'.queue, sent := s'.sent, panicked := s'.panicked)
      && ( || (s'.sent == s.sent && s'.isr == s.isr)
           || (s'.sent == s.sent && s.isr.DmaAcked? && s'.isr == Sent && Local(s.isr) == NO_EVENT)
           || (s'.sent == s.sent + [Local(s.isr)] && s.isr.DmaAcked? && s'.isr == Sent))
  {}

  /** A report enqueued is one report less in the handler. */
  lemma SendBalancedIn(s: Irq, s': Irq, l: Line, b: Bit)
    requires s'.raised == s.raised && s'.raw == s.raw && s'.idsts == s.idsts
    requires s.isr.DmaAcked? && s'.isr == Sent && s'.sent == s.sent + [Local(s.isr)]
    requires Balanced(s, l, b)
    ensures Balanced(s', l, b)
  {
    CountSnoc(s.sent, Local(s.isr), l, b);
  }

  lemma SendBalanced(s: Irq, l: Line, b: Bit)
    requires Balanced(s, l, b)
    ensures Balanced(Apply(s, IsrSend), l, b)
  {
    var s' := Apply(s, IsrSend);
    SendEffect(s);
    if s'.sent == s.sent {
      assert InFlight(s', l, b) <= InFlight(s, l, b);
    } else {
      SendBalancedIn(s, s', l, b);
    }
  }

  lemma StepRepeated(s: Irq, step: Step)
    requires NothingRepeated(s) && HandlerConsistent(s)
    ensures NothingRepeated(Apply(s, step))
  {
    forall l: Line, b: Bit ensures Balanced(Apply(s, step), l, b) {
      assert Balanced(s, l, b);
      match step {
        case HwRaise(e) => RaiseBalanced(s, e, l, b);
        case IsrSend => SendBalanced(s, l, b);
        case _ =>
          assert Apply(s, step).sent == s.sent && Apply(s, step).raised == s.raised;
          assert InFlight(Apply(s, step), l, b) <= InFlight(s, l, b);
      }
    }
  }

  /** Every atomic step of the hardware, the handler or the consumer keeps the delivery invariant. */
  lemma StepKeeps(s: Irq, step: Step)
    requires Inv(s)
    ensures Inv(Apply(s, step))
  {
    StepFifo(s, step);
    StepLost(s, step);
    StepInvented(s, step);
    StepRepeated(s, step);
  }

  /** Concurrent delivery: every interleaving, of any length, keeps the invariant. */
  lemma {:induction false} ExecKeeps(s: Irq, steps: seq<Step>)
    requires Inv(s)
    ensures Inv(Exec(s, steps))
    ensures Exec(s, steps).mask * LOW == s.mask * LOW
  {
    if steps != [] {
      var front := steps[..|steps| - 1];
      ExecKeeps(s, front);
      StepKeeps(Exec(s, front), steps[|steps| - 1]);
      MaskLow(Exec(s, front), steps[|steps| - 1]);
    }
  }

  lemma InitInv(mask: Word)
    ensures Inv(Init(mask))
  {
    assert RaisedEvents([]) == [];
  }

  /** Nothing enabled is waiting in a register, the handler is at rest and the queue is empty. */
  predicate Quiescent(s: Irq) {
    s.raw * s.mask * LOW == {} && s.idsts == {} && s.isr.Resting? && s.queue == []
  }

  lemma {:induction false} OrAllSuffix(es: seq<Event>, i: nat)
    requires i <= |es|
    ensures Within(OrAll(es[i..]), OrAll(es))
  {
    OrAllConcat(es[..i], es[i..]);
    assert es == es[..i] + es[i..];
  }

  lemma {:induction false} OrAllVisible(mask: Word, es: seq<Event>, bound: Event)
    requires forall i :: 0 <= i < |es| ==> Within(Visible(mask, es[i]), bound)
    ensures Within(Visible(mask, OrAll(es)), bound)
  {
    if es != [] {
      OrAllVisible(mask, es[..|es| - 1], bound);
    }
  }

  /** With the handler at rest, every visible bit raised so far was enqueued or is still in its register. */
  lemma AllCarried(s: Irq)
    requires Inv(s) && s.isr.Resting?
    ensures Within(Visible(s.mask, OrAll(RaisedEvents(s.raised))),
                   Merge(OrAll(s.sent), Event(s.raw * s.mask * LOW, s.idsts)))
  {
    var es := RaisedEvents(s.raised);
    var bound := Merge(OrAll(s.sent), Event(s.raw * s.mask * LOW, s.idsts));
    forall i | 0 <= i < |es| ensures Within(Visible(s.mask, es[i]), bound) {
      var at := s.raised[i].at;
      assert Within(Visible(s.mask, s.raised[i].event), Carriers(s, at));
      OrAllSuffix(s.sent, at);
      assert es[i].sdmmc * s.mask * LOW <= s.raw + OrAll(s.sent[at..]).sdmmc;
      assert (es[i].sdmmc * s.mask * LOW) * s.raw <= s.raw * s.mask * LOW;
    }
    OrAllVisible(s.mask, es, bound);
  }

  /** When things are quiet, the consumer has been told exactly the visible bits that were raised. */
  lemma QuietTold(s: Irq)
    requires Inv(s) && Quiescent(s)
    ensures s.sent == s.received
    ensures OrAll(s.received) == Visible(s.mask, OrAll(RaisedEvents(s.raised)))
  {
    assert s.sent == s.received;
    AllCarried(s);
  }

  /** The handler panics exactly when it has something to enqueue and 32 events are waiting. */
  lemma PanicIff(s: Irq, step: Step)
    requires Fifo(s) && !s.panicked
    ensures Apply(s, step).panicked <==> step.IsrSend? && s.isr.DmaAcked? && Local(s.isr) != NO_EVENT && |s.queue| == 32
  {}

  /** The SDIO interrupts that fired are masked, and only they; the semaphore is released once if any did. */
  lemma SdioMasks(s: Irq)
    requires Enabled(s, IsrSdio)
    ensures var s' := Apply(s, IsrSdio);
      && s'.mask * {16, 17} * s.raw == {}
      && (forall b :: b in s.mask && !(b in {16, 17} && b in s.raw) ==> b in s'.mask) && s'.mask <= s.mask
      && s'.released == s.released + if s.raw * s.mask * {16, 17} == {} then 0 else 1
  {
    var s', fired := Apply(s, IsrSdio), s.raw * s.mask * SDIO;
    assert s'.mask == s.mask - fired;
    assert (s.mask - fired) * {16, 17} * s.raw == {};
  }

  // ---- from one quiet point to another ----

  /** A quiet state with its past forgotten; what is left in a register, all of it disabled, counts as raised. */
  function Restart(s: Irq): Irq {
    s.(raised := [Raise(Event(s.raw, {}), 0)], sent := [], received := [])
  }

  lemma RestartInv(s: Irq)
    requires Inv(s) && Quiescent(s)
    ensures Inv(Restart(s))
  {
    var s' := Restart(s);
    var e := Event(s.raw, {});
    assert RaisedEvents(s'.raised) == [e];
    OneEvent(e);
    forall l: Line, b: Bit ensures Balanced(s', l, b) {
      assert [e][..0] == [];
      assert Count([e], l, b) == if b in On(l, e) then 1 else 0;
    }
  }

  /** What an execution received, enqueued and raised after the state `past`. */
  datatype News = News(raised: seq<Event>, sent: seq<Event>, received: seq<Event>)

  predicate Follows(past: Irq, s: Irq) {
    |past.raised| <= |s.raised| && |past.sent| <= |s.sent| && |past.received| <= |s.received|
  }

  function NewsSince(past: Irq, s: Irq): News
    requires Follows(past, s)
  {
    News(RaisedEvents(s.raised[|past.raised|..]), s.sent[|past.sent|..], s.received[|past.received|..])
  }

  /** What a step adds to the news. */
  function NewsOf(s: Irq, step: Step): News {
    if !Enabled(s, step) then News([], [], [])
    else
      match step
      case HwRaise(e) => News([e], [], [])
      case IsrSend => News([], Apply(s, step).sent[|s.sent|..], [])
      case Receive => News([], [], [s.queue[0]])
      case _ => News([], [], [])
  }

  lemma StepNews(past: Irq, s: Irq, step: Step)
    requires Follows(past, s)
    ensures |s.sent| <= |Apply(s, step).sent|
    ensures Follows(past, Apply(s, step))
    ensures var was, more := NewsSince(past, s), NewsOf(s, step);
      NewsSince(past, Apply(s, step)) ==
        News(was.raised + more.raised, was.sent + more.sent, was.received + more.received)
  {
    var s' := Apply(s, step);
    assert s'.sent[|past.sent|..] == s.sent[|past.sent|..] + s'.sent[|s.sent|..];
    if step.HwRaise? {
      assert s'.raised[|past.raised|..] == s.raised[|past.raised|..] + [Raise(step.event, |s.sent|)];
      RaisedSnoc(s.raised[|past.raised|..], Raise(step.event, |s.sent|));
    }
  }

  /** `a` and `b` differ only in their histories. */
  predicate SamePresent(a: Irq, b: Irq) {
    b == a.(raised := b.raised, sent := b.sent, received := b.received)
  }

  lemma StepSame(a: Irq, b: Irq, step: Step)
    requires SamePresent(a, b)
    ensures SamePresent(Apply(a, step), Apply(b, step)) && NewsOf(a, step) == NewsOf(b, step)
  {}

  /** The same steps bring the same news, whatever happened before. */
  lemma {:induction false} ExecSame(a: Irq, b: Irq, steps: seq<Step>)
    requires SamePresent(a, b)
    ensures Follows(a, Exec(a, steps)) && Follows(b, Exec(b, steps))
    ensures SamePresent(Exec(a, steps), Exec(b, steps))
    ensures NewsSince(a, Exec(a, steps)) == NewsSince(b, Exec(b, steps))
  {
    if steps != [] {
      var front, last := steps[..|steps| - 1], steps[|steps| - 1];
      ExecSame(a, b, front);
      StepSame(Exec(a, front), Exec(b, front), last);
      StepNews(a, Exec(a, front), last);
      StepNews(b, Exec(b, front), last);
    }
  }

  /** What the consumer was given after `s`. */
  function ReceivedSince(s: Irq, s': Irq): seq<Event>
    requires |s.received| <= |s'.received|
  {
    s'.received[|s.received|..]
  }

  /** What the hardware raised after `s`, in order. */
  function RaisedSince(s: Irq, s': Irq): seq<Event>
    requires |s.raised| <= |s'.raised|
  {
    RaisedEvents(s'.raised[|s.raised|..])
  }

  lemma {:induction false} ExecGrows(s: Irq, steps: seq<Step>)
    ensures s.received <= Exec(s, steps).received && s.raised <= Exec(s, steps).raised
  {
    if steps != [] {
      ExecGrows(s, steps[..|steps| - 1]);
    }
  }

  /**
   * A stretch of an execution that begins at a quiet point is an execution of its own, with no
   * past but an invisible raise.
   */
  lemma StretchAlone(s: Irq, steps: seq<Step>) returns (alone: Irq)
    requires Inv(s) && Quiescent(s)
    ensures alone == Exec(Restart(s), steps) && Inv(alone) && SamePresent(Exec(s, steps), alone)
    ensures var s' := Exec(s, steps);
      && s.received <= s'.received && s.raised <= s'.raised
      && alone.received == ReceivedSince(s, s')
      && RaisedEvents(alone.raised) == [Event(s.raw, {})] + RaisedSince(s, s')
      && s'.mask * LOW == s.mask * LOW
  {
    alone := Exec(Restart(s), steps);
    RestartInv(s);
    ExecKeeps(Restart(s), steps);
    ExecKeeps(s, steps);
    ExecGrows(s, steps);
    ExecGrows(Restart(s), steps);
    ExecSame(s, Restart(s), steps);
    RestartNews(s, alone);
  }

  lemma RestartNews(s: Irq, s': Irq)
    requires Restart(s).raised <= s'.raised && Follows(Restart(s), s')
    ensures NewsSince(Restart(s), s').received == s'.received
    ensures RaisedEvents(s'.raised) == [Event(s.raw, {})] + NewsSince(Restart(s), s').raised
  {}

  /**
   * Between any two quiet points of an execution the consumer receives exactly the visible bits
   * raised between them.
   */
  lemma QuietDelivery(s: Irq, steps: seq<Step>)
    requires Inv(s) && Quiescent(s) && Quiescent(Exec(s, steps))
    ensures var s' := Exec(s, steps);
      && s.received <= s'.received && s.raised <= s'.raised
      && OrAll(ReceivedSince(s, s')) == Visible(s.mask, OrAll(RaisedSince(s, s')))
  {
    var s' := Exec(s, steps);
    var alone := StretchAlone(s, steps);
    QuietTold(alone);
    var left, es := Event(s.raw, {}), RaisedSince(s, s');
    OneEvent(left);
    OrAllConcat([left], es);
    var all := OrAll(es);
    assert all.sdmmc * s.mask * LOW == all.sdmmc * (s.mask * LOW);
    assert all.sdmmc * s'.mask * LOW == all.sdmmc * (s'.mask * LOW);
    assert (left.sdmmc + all.sdmmc) * s'.mask * LOW
        == (left.sdmmc * (s'.mask * LOW)) + (all.sdmmc * (s'.mask * LOW));
    assert left.sdmmc * (s'.mask * LOW) == s.raw * s.mask * LOW == {};
    assert left.dma + all.dma == all.dma;
  }

  // ---- whatever happened before, everything raised can still be delivered ----

  lemma {:induction false} ExecConcat(s: Irq, a: seq<Step>, b: seq<Step>)
    ensures Exec(s, a + b) == Exec(Exec(s, a), b)
  {
    if b == [] {
      assert a + b == a;
    } else {
      var b', last := b[..|b| - 1], b[|b| - 1];
      ExecConcat(s, a, b');
      assert (a + b)[..|a + b| - 1] == a + b';
    }
  }

  lemma ExecSnoc(s: Irq, steps: seq<Step>, step: Step)
    ensures Exec(s, steps + [step]) == Apply(Exec(s, steps), step)
  {
    assert (steps + [step])[..|steps|] == steps;
  }

  lemma ExecCons(s: Irq, steps: seq<Step>)
    requires steps != []
    ensures Exec(s, steps) == Exec(Apply(s, steps[0]), steps[1..])
  {
    ExecConcat(s, [steps[0]], steps[1..]);
    ExecOne(s, steps[0]);
    assert steps == [steps[0]] + steps[1..];
  }

  lemma ExecOne(s: Irq, step: Step)
    ensures Exec(s, [step]) == Apply(s, step)
  {
    assert [step][..0] == [];
  }

  predicate NoRaise(steps: seq<Step>) { forall i :: 0 <= i < |steps| ==> !steps[i].HwRaise? }

  lemma {:induction false} ReceiveAll(s: Irq) returns (steps: seq<Step>)
    requires !s.panicked
    ensures NoRaise(steps)
    ensures Exec(s, steps) == s.(received := s.received + s.queue, queue := [])
    decreases |s.queue|
  {
    if s.queue == [] {
      steps := [];
      assert s.received + s.queue == s.received;
    } else {
      var s1 := Apply(s, Receive);
      var rest := ReceiveAll(s1);
      steps := [Receive] + rest;
      ExecConcat(s, [Receive], rest);
      ExecOne(s, Receive);
      assert s1.received + s1.queue == s.received + s.queue;
    }
  }

  /** The handler, left alone with room in the queue, comes to rest; what it reads from now on, it clears. */
  lemma {:induction false} HandlerRests(s: Irq, n: nat) returns (steps: seq<Step>)
    requires !s.panicked && |s.queue| < CAPACITY && n == StepsLeft(s.isr)
    ensures NoRaise(steps)
    ensures var s' := Exec(s, steps);
      && s'.isr == Resting && !s'.panicked
      && s'.mask <= s.mask
      && s'.raw == (if s.isr.Read? then s.raw - s.isr.pending else s.raw)
      && s'.idsts == (match s.isr
                      case Read(_) => {}
                      case Acked(_) => {}
                      case DmaRead(_, d) => s.idsts - d
                      case _ => s.idsts)
    decreases n
  {
    if n == 0 {
      steps := [];
    } else {
      var step := NextStep(s.isr);
      var s1 := Apply(s, step);
      if s.isr.DmaAcked? || s.isr.Sent? {
        steps := LastSteps(s);
      } else {
        var rest := HandlerRests(s1, n - 1);
        steps := [step] + rest;
        ExecConcat(s, [step], rest);
        ExecOne(s, step);
      }
    }
  }

  function StepsLeft(isr: Isr): nat {
    match isr
    case Resting => 0
    case Read(_) => 5
    case Acked(_) => 4
    case DmaRead(_, _) => 3
    case DmaAcked(_, _) => 2
    case Sent => 1
  }

  function NextStep(isr: Isr): Step {
    match isr
    case Resting => IsrRead
    case Read(_) => IsrAck
    case Acked(_) => IsrDmaRead
    case DmaRead(_, _) => IsrDmaAck
    case DmaAcked(_, _) => IsrSend
    case Sent => IsrSdio
  }

  lemma LastSteps(s: Irq) returns (steps: seq<Step>)
    requires !s.panicked && |s.queue| < CAPACITY && (s.isr.DmaAcked? || s.isr.Sent?)
    ensures NoRaise(steps)
    ensures var s' := Exec(s, steps);
      s'.isr == Resting && !s'.panicked && s'.raw == s.raw && s'.idsts == s.idsts && s'.mask <= s.mask
  {
    if s.isr.Sent? {
      steps := [IsrSdio];
      ExecOne(s, IsrSdio);
    } else {
      steps := [IsrSend] + [IsrSdio];
      ExecConcat(s, [IsrSend], [IsrSdio]);
      ExecOne(s, IsrSend);
      ExecOne(Apply(s, IsrSend), IsrSdio);
    }
  }

  /** A fresh run of the handler, left alone with room in the queue, leaves nothing visible behind. */
  lemma FreshRun(s: Irq) returns (steps: seq<Step>)
    requires !s.panicked && |s.queue| < CAPACITY && s.isr.Resting?
    ensures NoRaise(steps)
    ensures var s' := Exec(s, steps);
      s'.isr == Resting && !s'.panicked && s'.raw * s'.mask * LOW == {} && s'.idsts == {}
  {
    var s1 := Apply(s, IsrRead);
    var rest := HandlerRests(s1, 5);
    steps := [IsrRead] + rest;
    ExecConcat(s, [IsrRead], rest);
    ExecOne(s, IsrRead);
    var s' := Exec(s, steps);
    assert s'.raw * s'.mask * LOW <= s.raw * s.mask * LOW;
  }

  /**
   * From every state without a panic, the software alone can reach a quiet state: consume, let
   * the handler finish, consume, let it run once more, consume.
   */
  lemma Drainable(s: Irq) returns (steps: seq<Step>)
    requires !s.panicked
    ensures NoRaise(steps) && Quiescent(Exec(s, steps)) && !Exec(s, steps).panicked
  {
    var a := ReceiveAll(s);
    var s1 := Exec(s, a);
    var b := HandlerRests(s1, StepsLeft(s1.isr));
    var s2 := Exec(s1, b);
    var c := ReceiveAll(s2);
    var s3 := Exec(s2, c);
    var d := FreshRun(s3);
    var s4 := Exec(s3, d);
    var e := ReceiveAll(s4);
    steps := a + b + c + d + e;
    ExecConcat(s, a, b);
    ExecConcat(s, a + b, c);
    ExecConcat(s, a + b + c, d);
    ExecConcat(s, a + b + c + d, e);
  }
}
