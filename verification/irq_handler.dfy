/**
 * The interrupt handler in the source's own form: a method that reads, acknowledges and enqueues,
 * with hardware raising bits between its register accesses. Its ghost trace ties it to the
 * interleaved steps of module Inter.
 */
module IrqHandler {
  import opened Common
  import opened Inter

  /** The steps of a trace that software took. */
  function Software(steps: seq<Step>): seq<Step> {
    if steps == [] then []
    else
      var last := steps[|steps| - 1];
      Software(steps[..|steps| - 1]) + if last.HwRaise? then [] else [last]
  }

  lemma SoftwareSnoc(steps: seq<Step>, step: Step)
    ensures Software(steps + [step]) == Software(steps) + if step.HwRaise? then [] else [step]
  {
    assert (steps + [step])[..|steps|] == steps;
  }

  const HANDLER: seq<Step> := [IsrRead, IsrAck, IsrDmaRead, IsrDmaAck, IsrSend, IsrSdio]

  class IrqBlock {
    var rintsts: Word
    var intmask: Word
    var idsts: Word
    var queue: seq<Event>
    var released: nat
    var panicked: bool
    ghost const mask0: Word
    ghost var isr: Isr
    ghost var raised: seq<Raise>
    ghost var sent: seq<Event>
    ghost var received: seq<Event>
    ghost var trace: seq<Step>
    ghost var soft: seq<Step>
    /** How many polls have gone by. */
    ghost var polls: nat

    ghost function View(): Irq
      reads this
    {
      Irq(rintsts, intmask, idsts, isr, queue, panicked, released, raised, sent, received)
    }

    /** The object is where its trace of steps leads; `soft` are the software steps in it. */
    ghost predicate Valid()
      reads this
    {
      View() == Exec(Init(mask0), trace) && soft == Software(trace)
    }

    /** intmask_clear_disable, the clearing of the queue and intmask_set_enable. */
    constructor (mask: Word)
      ensures Valid() && trace == [] && View() == Init(mask) && mask0 == mask
    {
      rintsts, intmask, idsts, queue, released, panicked := {}, mask, {}, [], 0, false;
      mask0, isr, raised, sent, received, trace, soft := mask, Resting, [], [], [], [], [];
      polls := 0;
    }

    /** Any number of hardware reports. */
    method Interfere()
      requires Valid()
      modifies this
      ensures polls == old(polls)
      ensures Valid() && soft == old(soft) && old(trace) <= trace
      ensures unchanged(this`intmask, this`queue, this`released, this`panicked)
      ensures unchanged(this`isr, this`sent, this`received)
      ensures old(rintsts) <= rintsts && old(idsts) <= idsts
    {
      var n: nat := *;
      while n > 0
        invariant polls == old(polls)
        invariant Valid() && soft == old(soft) && old(trace) <= trace
        invariant unchanged(this`intmask, this`queue, this`released, this`panicked)
        invariant unchanged(this`isr, this`sent, this`received)
        invariant old(rintsts) <= rintsts && old(idsts) <= idsts
      {
        var e: Event := *;
        rintsts, idsts := rintsts + e.sdmmc, idsts + e.dma;
        raised := raised + [Raise(e, |sent|)];
        Log(HwRaise(e));
        n := n - 1;
      }
    }

    /** Extends the trace by the step just taken. */
    ghost method Log(step: Step)
      requires View() == Apply(Exec(Init(mask0), trace), step) && soft == Software(trace)
      modifies this`trace, this`soft
      ensures Valid() && trace == old(trace) + [step]
      ensures soft == old(soft) + if step.HwRaise? then [] else [step]
    {
      ExecSnoc(Init(mask0), trace, step);
      SoftwareSnoc(trace, step);
      trace := trace + [step];
      soft := soft + if step.HwRaise? then [] else [step];
    }

    /** mintsts: the enabled low bits. */
    method ReadPending() returns (pending: Word)
      requires Valid() && isr.Resting? && !panicked
      modifies this`isr, this`trace, this`soft
      ensures Valid() && isr == Read(pending) && pending == rintsts * intmask * LOW
      ensures soft == old(soft) + [IsrRead] && old(trace) <= trace
    {
      pending := rintsts * intmask * LOW;
      isr := Read(pending);
      Log(IsrRead);
    }

    /** Writing ones to rintsts clears them. */
    method AckPending(pending: Word)
      requires Valid() && isr == Read(pending) && !panicked
      modifies this`rintsts, this`isr, this`trace, this`soft
      ensures Valid() && isr == Acked(pending) && rintsts == old(rintsts) - pending
      ensures soft == old(soft) + [IsrAck] && old(trace) <= trace
    {
      rintsts := rintsts - pending;
      isr := Acked(pending);
      Log(IsrAck);
    }

    method ReadDma(ghost pending: Word) returns (dmaPending: Word)
      requires Valid() && isr == Acked(pending) && !panicked
      modifies this`isr, this`trace, this`soft
      ensures Valid() && isr == DmaRead(pending, dmaPending) && dmaPending == idsts
      ensures soft == old(soft) + [IsrDmaRead] && old(trace) <= trace
    {
      dmaPending := idsts;
      isr := DmaRead(pending, dmaPending);
      Log(IsrDmaRead);
    }

    method AckDma(ghost pending: Word, dmaPending: Word)
      requires Valid() && isr == DmaRead(pending, dmaPending) && !panicked
      modifies this`idsts, this`isr, this`trace, this`soft
      ensures Valid() && isr == DmaAcked(pending, dmaPending) && idsts == old(idsts) - dmaPending
      ensures soft == old(soft) + [IsrDmaAck] && old(trace) <= trace
    {
      idsts := idsts - dmaPending;
      isr := DmaAcked(pending, dmaPending);
      Log(IsrDmaAck);
    }

    /** Enqueues what was read unless both words are zero; a full queue is a panic. */
    method Send(pending: Word, dmaPending: Word)
      requires Valid() && isr == DmaAcked(pending, dmaPending) && !panicked
      modifies this`queue, this`sent, this`panicked, this`isr, this`trace, this`soft
      ensures Valid()
      ensures soft == old(soft) + [IsrSend] && old(trace) <= trace
      ensures panicked <==> (pending != {} || dmaPending != {}) && |old(queue)| == CAPACITY
      ensures !panicked ==> isr == Sent
      ensures !panicked && (pending != {} || dmaPending != {}) ==> queue == old(queue) + [Event(pending, dmaPending)]
      ensures pending == dmaPending == {} || panicked ==> queue == old(queue)
    {
      QueueBound();
      if pending != {} || dmaPending != {} {
        if |queue| == CAPACITY {
          panicked := true;
          Log(IsrSend);
          return;
        }
        var event := Event(pending, dmaPending);
        queue := queue + [event];
        sent := sent + [event];
      }
      isr := Sent;
      Log(IsrSend);
    }

    /** Masks the SDIO interrupts that fired and releases the semaphore once. */
    method Sdio()
      requires Valid() && isr == Sent && !panicked
      modifies this`intmask, this`released, this`isr, this`trace, this`soft
      ensures Valid() && isr == Resting
      ensures soft == old(soft) + [IsrSdio] && old(trace) <= trace
      ensures intmask == old(intmask) - rintsts * old(intmask) * SDIO
    {
      var sdioPending := rintsts * intmask * SDIO;
      if sdioPending != {} {
        intmask := intmask - sdioPending;
        released := released + 1;
      }
      isr := Resting;
      Log(IsrSdio);
    }

    method ReadAndAckController() returns (pending: Word)
      requires Valid() && isr.Resting? && !panicked
      modifies this
      ensures polls == old(polls)
      ensures Valid() && isr == Acked(pending) && !panicked && queue == old(queue) && intmask == old(intmask)
      ensures old(rintsts) * old(intmask) * LOW <= pending <= old(intmask) * LOW && old(idsts) <= idsts
      ensures received == old(received)
      ensures soft == old(soft) + [IsrRead, IsrAck] && old(trace) <= trace
    {
      Interfere();
      pending := ReadPending();
      Interfere();
      AckPending(pending);
    }

    method ReadAndAckDma(ghost pending: Word) returns (dmaPending: Word)
      requires Valid() && isr == Acked(pending) && !panicked
      modifies this
      ensures polls == old(polls)
      ensures Valid() && isr == DmaAcked(pending, dmaPending) && !panicked && queue == old(queue)
      ensures old(idsts) <= dmaPending && received == old(received)
      ensures soft == old(soft) + [IsrDmaRead, IsrDmaAck] && old(trace) <= trace
    {
      Interfere();
      dmaPending := ReadDma(pending);
      Interfere();
      AckDma(pending, dmaPending);
    }

    /** Everything up to the enqueueing: both status words are read and acknowledged. */
    method ReadAndAck() returns (pending: Word, dmaPending: Word)
      requires Valid() && isr.Resting? && !panicked
      modifies this
      ensures polls == old(polls)
      ensures Valid() && isr == DmaAcked(pending, dmaPending) && !panicked && queue == old(queue)
      ensures Within(old(Pending()), Event(pending, dmaPending)) && pending <= old(intmask) * LOW
      ensures received == old(received)
      ensures soft == old(soft) + [IsrRead, IsrAck, IsrDmaRead, IsrDmaAck] && old(trace) <= trace
    {
      pending := ReadAndAckController();
      dmaPending := ReadAndAckDma(pending);
    }

    /** The enabled reports waiting in the registers. */
    function Pending(): Event
      reads this
    {
      Event(rintsts * intmask * LOW, idsts)
    }

    /** The rest of the handler: enqueue what was read, then see to the SDIO interrupts. */
    method SendAndSdio(pending: Word, dmaPending: Word)
      requires Valid() && isr == DmaAcked(pending, dmaPending) && !panicked
      modifies this
      ensures polls == old(polls)
      ensures Valid() && (panicked || isr.Resting?) && received == old(received)
      ensures old(trace) <= trace
      ensures soft == old(soft) + if panicked then HANDLER[4..5] else HANDLER[4..]
      ensures panicked <==> Event(pending, dmaPending) != NO_EVENT && |old(queue)| == CAPACITY
      ensures var e := Event(pending, dmaPending);
        queue == old(queue) + if panicked || e == NO_EVENT then [] else [e]
    {
      Interfere();
      Send(pending, dmaPending);
      if panicked {
        return;
      }
      Interfere();
      Sdio();
    }

    /**
     * One run of the handler, with hardware raising bits all the while. Either nothing was pending
     * and nothing is sent, or exactly one event is enqueued that holds everything pending at the
     * entry. It panics only at a full queue, and always there if something was pending.
     */
    method Handler()
      requires Valid() && isr.Resting? && !panicked
      modifies this
      ensures polls == old(polls)
      ensures Valid()
      ensures old(trace) <= trace
      ensures soft == old(soft) + if panicked then HANDLER[..5] else HANDLER
      ensures panicked || isr.Resting?
      ensures panicked ==> |old(queue)| == CAPACITY && queue == old(queue)
      ensures old(Pending()) != NO_EVENT && |old(queue)| == CAPACITY ==> panicked
      ensures !panicked ==> Reported(old(Pending()), old(queue), old(intmask))
      ensures received == old(received)
    {
      var pending, dmaPending := ReadAndAck();
      SendAndSdio(pending, dmaPending);
    }

    /** The queue is what it was, with nothing pending then, or has one more event with all that was pending. */
    ghost predicate Reported(wasPending: Event, wasQueued: seq<Event>, wasEnabled: Word)
      reads this`queue
    {
      || (wasPending == NO_EVENT && queue == wasQueued)
      || (|queue| == |wasQueued| + 1 && queue[..|wasQueued|] == wasQueued
          && var e := queue[|wasQueued|];
             Within(wasPending, e) && e != NO_EVENT && e.sdmmc <= wasEnabled * LOW)
    }

    lemma QueueBound()
      requires Valid()
      ensures |queue| <= CAPACITY && sent == received + queue
    {
      InitInv(mask0);
      ExecKeeps(Init(mask0), trace);
    }

    /**
     * One poll goes by: the hardware raises bits, the handler runs if something enabled is pending,
     * and then both any number of times. The handler may find the queue full, since nobody takes
     * events out of it meanwhile.
     */
    method Elapse()
      requires Valid() && isr.Resting? && !panicked
      modifies this
      ensures Valid() && (panicked || isr.Resting?) && polls == old(polls) + 1
      ensures old(queue) <= queue && received == old(received) && old(trace) <= trace
      ensures panicked ==> |queue| == CAPACITY
      ensures !panicked ==> PassedOn(old(Pending()), |old(queue)|)
    {
      polls := polls + 1;
      Answer();
      RunOn();
    }

    /** What was pending is now in the event that follows the first `n` in the queue. */
    ghost predicate PassedOn(wasPending: Event, n: nat)
      reads this`queue
    {
      wasPending != NO_EVENT ==> |queue| > n && Within(wasPending, queue[n])
    }

    /** The interrupt is answered if there is one. */
    method Answer()
      requires Valid() && isr.Resting? && !panicked
      modifies this
      ensures Valid() && (panicked || isr.Resting?) && polls == old(polls)
      ensures old(queue) <= queue && received == old(received) && old(trace) <= trace
      ensures panicked ==> |queue| == CAPACITY
      ensures !panicked ==> PassedOn(old(Pending()), |old(queue)|)
    {
      Interfere();
      assert Within(old(Pending()), Pending());
      if Pending() != NO_EVENT {
        Handler();
      } else {
        assert old(Pending()) == NO_EVENT;
      }
    }

    /** The hardware raises bits and the handler runs, any number of times. */
    method RunOn()
      requires Valid() && (panicked || isr.Resting?) && (panicked ==> |queue| == CAPACITY)
      modifies this
      ensures Valid() && (panicked || isr.Resting?) && polls == old(polls)
      ensures old(queue) <= queue && received == old(received) && old(trace) <= trace
      ensures (panicked ==> |queue| == CAPACITY) && (old(panicked) ==> panicked)
    {
      var runs: nat := *;
      while runs > 0 && !panicked
        invariant Valid() && (panicked || isr.Resting?) && polls == old(polls)
        invariant old(queue) <= queue && received == old(received) && old(trace) <= trace
        invariant (panicked ==> |queue| == CAPACITY) && (old(panicked) ==> panicked)
      {
        Handler();
        Interfere();
        runs := runs - 1;
      }
    }

    /**
     * wait_for_event: the oldest event not received yet, or a timeout when none has come by the
     * last of `ticks` polls. Until it is taken, the hardware may raise bits and the handler may run.
     */
    method Receive(ticks: nat) returns (event: Option<Event>)
      requires Valid() && isr.Resting? && !panicked
      modifies this
      ensures Valid() && (panicked || isr.Resting?) && old(trace) <= trace
      ensures panicked ==> event.None? && |queue| == CAPACITY
      ensures old(queue) != [] && !panicked ==> event == Some(old(queue)[0]) && old(queue)[1..] <= queue
      ensures event.Some? ==> received == old(received) + [event.value]
      ensures event.None? ==> received == old(received) && (panicked || queue == [])
      ensures event.None? && !panicked ==> polls >= old(polls) + ticks && old(Pending()) == NO_EVENT
      ensures old(queue) == [] && old(Pending()) != NO_EVENT && !panicked ==>
        event.Some? && Within(old(Pending()), event.value)
      ensures old(polls) <= polls <= old(polls) + ticks + 1
    {
      event := None;
      Elapse();
      for i := 0 to ticks
        invariant Valid() && (panicked || isr.Resting?) && old(trace) <= trace
        invariant old(queue) <= queue && received == old(received) && polls == old(polls) + 1 + i
        invariant panicked ==> |queue| == CAPACITY
        invariant !panicked ==> PassedOn(old(Pending()), |old(queue)|)
      {
        if panicked || queue != [] {
          break;
        }
        Elapse();
      }
      if panicked || queue == [] {
        return;
      }
      event := Some(queue[0]);
      received := received + [queue[0]];
      queue := queue[1..];
      Log(Step.Receive);
    }
  }
}
