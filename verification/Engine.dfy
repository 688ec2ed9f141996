/** One DMA direction as seen by the software: the FPGA works through the ring
    and the interrupt handler samples it, in any order.

    A run is an arbitrary sequence of events. Work lets the FPGA move one byte
    of the current buffer or, once all bytes are moved, complete the buffer;
    Irq is one invocation of the interrupt handler. Nothing restricts when
    interrupts are handled, so interrupts may be lost, merged or spurious. */
module Engine {
  import opened Config
  import opened Counter
  import opened Descriptors

  datatype Event = Work | Irq

  type Events = nat -> Event

  datatype Dma = Dma(
    done: nat,    // buffers completed since the start, never truncated
    pos: nat,     // bytes moved of buffer number done
    hw: nat,      // *_hw_count
    last: nat,    // *_hw_count_last
    raised: nat)  // count at the oldest interrupt not yet handled, 0 if none

  const START: Dma := Dma(0, 0, 0, 0, 0)

  function Step(s: Dma, e: Event): Dma {
    match e
    case Work =>
      if s.pos < BUFFER_SIZE then s.(pos := s.pos + 1)
      else s.(done := s.done + 1, pos := 0,
              raised := if s.raised == 0 && Interrupting(s.done) then s.done + 1 else s.raised)
    case Irq =>
      var n := Reconstruct(s.hw, s.last, LoopStatus(s.done));
      s.(hw := n, last := n, raised := 0)
  }

  function Run(events: Events, t: nat): Dma {
    if t == 0 then START else Step(Run(events, t - 1), events(t - 1))
  }

  // Bytes moved so far.
  function Moved(s: Dma): nat { Offset(s.done, s.pos) }

  // How far the driver's count trails the true one.
  function Lag(s: Dma): int { s.done - s.hw }

  ghost predicate LagWithin(events: Events, bound: nat) {
    forall t: nat :: Lag(Run(events, t)) <= bound
  }

  lemma {:induction false} RunOrdered(events: Events, t: nat)
    ensures var s := Run(events, t); s.last == s.hw <= s.done && s.pos <= BUFFER_SIZE
  {
    hide Reconstruct;
    if t > 0 {
      RunOrdered(events, t - 1);
      var s := Run(events, t - 1);
      ReconstructAdvance(s.hw, s.done);
    }
  }

  lemma RunStarts(events: Events)
    ensures Run(events, 0) == START
  {
  }

  lemma RunNext(events: Events, t: nat)
    ensures Run(events, t + 1) == Step(Run(events, t), events(t))
  {
  }

  // What one interrupt does to a run.
  lemma RunIrq(events: Events, t: nat, s: Dma, n: nat)
    requires s == Run(events, t) && events(t) == Irq
    requires n == Reconstruct(s.hw, s.last, LoopStatus(s.done))
    ensures Run(events, t + 1) == s.(hw := n, last := n, raised := 0) && n <= s.done
  {
    hide Reconstruct;
    RunOrdered(events, t);
    ReconstructAdvance(s.hw, s.done);
  }

  // Neither the engine nor the count the driver sees ever goes back.
  lemma {:induction false} RunMonotone(events: Events, t: nat, u: nat)
    requires t <= u
    ensures var a, b := Run(events, t), Run(events, u);
            a.hw <= b.hw && a.done <= b.done && Moved(a) <= Moved(b)
    decreases u
  {
    hide Reconstruct;
    if t < u {
      RunMonotone(events, t, u - 1);
      RunOrdered(events, u - 1);
      var s := Run(events, u - 1);
      ReconstructAdvance(s.hw, s.done);
    }
  }

  /* Counter reconstruction */

  // The true count at the latest interrupt before time t.
  function Sampled(events: Events, t: nat): nat {
    if t == 0 then 0
    else if events(t - 1) == Irq then Run(events, t - 1).done
    else Sampled(events, t - 1)
  }

  // Fewer than 2^24 buffers completed between any two samples so far.
  predicate GapsShort(events: Events, t: nat) {
    t == 0 ||
    (GapsShort(events, t - 1) &&
     (events(t - 1) == Irq ==> Run(events, t - 1).done - Sampled(events, t - 1) < PERIOD))
  }

  // The rebuilt count never passes the sampled true count, agrees with it modulo
  // the register's period, and equals it iff no gap was too long.
  lemma {:induction false} CountExactIffGapsShort(events: Events, t: nat)
    ensures var s := Run(events, t);
            && s.hw <= Sampled(events, t) <= s.done
            && s.hw % PERIOD == Sampled(events, t) % PERIOD
            && (s.hw == Sampled(events, t) <==> GapsShort(events, t))
  {
    hide Run, Reconstruct;
    if t > 0 {
      CountExactIffGapsShort(events, t - 1);
      RunOrdered(events, t - 1);
      RunNext(events, t - 1);
      var s, sampled := Run(events, t - 1), Sampled(events, t - 1);
      if events(t - 1) == Irq {
        ReconstructIsLeast(s.hw, s.done);
        ReconstructAdvance(s.hw, s.done);
        if s.hw < sampled {
          CongruentApart(s.hw, sampled);
        }
      }
    } else {
      RunStarts(events);
    }
  }

  /* Interrupt cadence */

  // The handler runs before more than `latency` buffers complete after an interrupt.
  ghost predicate HandledWithin(events: Events, latency: nat) {
    forall t: nat :: var s := Run(events, t); s.raised != 0 ==> s.done - s.raised <= latency
  }

  // The pending interrupt is the first one after the driver's count, and until
  // it is raised the engine has not passed it.
  predicate FirstIrqPending(s: Dma) {
    && s.last == s.hw <= s.done
    && (s.raised == 0 ==> s.done <= NextIrq(s.hw))
    && (s.raised != 0 ==> s.raised == NextIrq(s.hw) + 1 <= s.done)
  }

  lemma StepKeepsFirstIrqPending(s: Dma, e: Event)
    requires FirstIrqPending(s) && Lag(s) < PERIOD
    ensures FirstIrqPending(Step(s, e))
  {
    hide Reconstruct;
    match e
    case Work =>
      OneIrqPerStride(s.hw);
      InterruptingEvery32(s.done);
    case Irq =>
      OneIrqPerStride(s.done);
      ReconstructAdvance(s.hw, s.done);
  }

  lemma {:induction false} RaisedByFirstIrq(events: Events, t: nat, latency: nat)
    requires HandledWithin(events, latency) && latency < PERIOD - BUFFER_PER_IRQ
    ensures FirstIrqPending(Run(events, t))
  {
    hide Reconstruct;
    if t > 0 {
      RaisedByFirstIrq(events, t - 1, latency);
      OneIrqPerStride(Run(events, t - 1).hw);
      StepKeepsFirstIrqPending(Run(events, t - 1), events(t - 1));
    }
  }

  // One interrupt every 32 buffers, handled within L, bounds the lag by 32 + L.
  lemma CadenceBoundsLag(events: Events, latency: nat)
    requires HandledWithin(events, latency) && latency < PERIOD - BUFFER_PER_IRQ
    ensures LagWithin(events, 32 + latency)
  {
    forall t: nat
      ensures Lag(Run(events, t)) <= BUFFER_PER_IRQ + latency
    {
      RaisedByFirstIrq(events, t, latency);
      OneIrqPerStride(Run(events, t).hw);
    }
  }

  // The lag the ring tolerates is met by a handler no later than 95 buffers.
  lemma PromptHandlerKeepsMargin(events: Events, latency: nat)
    requires HandledWithin(events, latency) && latency <= 95
    ensures LagWithin(events, 127)
  {
    CadenceBoundsLag(events, latency);
  }

  /* The driver's accesses */

  /** All that the software does not choose: what happens, and how much of it happens
      before each of the driver's accesses to shared state. Nothing restricts either. */
  datatype World = World(events: Events, delay: nat -> nat)

  // The time of the k-th access.
  function Clock(w: World, k: nat): nat {
    if k == 0 then 0 else Clock(w, k - 1) + w.delay(k - 1)
  }

  // What the k-th access finds.
  function Seen(w: World, k: nat): Dma { Run(w.events, Clock(w, k)) }

  lemma ClockNext(w: World, k: nat)
    ensures Clock(w, 0) == 0 && Clock(w, k + 1) == Clock(w, k) + w.delay(k)
  {
  }

  lemma {:induction false} ClockMonotone(w: World, j: nat, k: nat)
    requires j <= k
    ensures Clock(w, j) <= Clock(w, k)
    decreases k
  {
    if j < k {
      ClockMonotone(w, j, k - 1);
    }
  }

  lemma SeenMonotone(w: World, j: nat, k: nat)
    requires j <= k
    ensures var a, b := Seen(w, j), Seen(w, k);
            a.hw <= b.hw && a.done <= b.done && Moved(a) <= Moved(b)
  {
    ClockMonotone(w, j, k);
    RunMonotone(w.events, Clock(w, j), Clock(w, k));
  }

  lemma SeenOrdered(w: World, k: nat)
    ensures var s := Seen(w, k); s.last == s.hw <= s.done && s.pos <= BUFFER_SIZE
    ensures Seen(w, 0) == START
  {
    RunOrdered(w.events, Clock(w, k));
  }

  // How many buffers complete during n accesses from the k-th on.
  function Completions(w: World, k: nat, n: nat): int { Seen(w, k + n).done - Seen(w, k).done }

  // A count that is the same at two accesses is so at all between.
  lemma SeenSteady(w: World, j: nat, k: nat, l: nat)
    requires j <= k <= l && Seen(w, j).hw == Seen(w, l).hw
    ensures Seen(w, k).hw == Seen(w, j).hw
  {
    hide Seen;
    SeenMonotone(w, j, k);
    SeenMonotone(w, k, l);
  }

  // In a run with latency L, what an access finds completed is at most 32 + L ahead
  // of the count it finds.
  lemma SeenLag(w: World, latency: nat, k: nat)
    requires HandledWithin(w.events, latency) && latency < PERIOD - BUFFER_PER_IRQ
    ensures Seen(w, k).done <= Seen(w, k).hw + 32 + latency
  {
    hide Run, HandledWithin;
    CadenceBoundsLag(w.events, latency);
    assert Lag(Run(w.events, Clock(w, k))) <= BUFFER_PER_IRQ + latency;
  }
}
