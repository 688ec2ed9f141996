/** Why half a ring: what the margin test of litepcie_read is worth. */
module Margin {
  import opened Config
  import opened Counter
  import opened Descriptors
  import opened Engine
  import opened RxSchedule
  import TxSchedule

  // At most c buffers complete during the copy that begins at access k.
  predicate Quick(w: World, k: nat, c: nat) { Completions(w, k, BUFFER_SIZE) <= c }

  // The buffer was at most half a ring behind a count that trails by 32 + L.
  lemma MarginIsEnough(w: World, b: nat, k: nat, latency: nat, c: nat)
    requires HandledWithin(w.events, latency) && BUFFER_PER_IRQ + latency + c < MARGIN
    requires Admitted(w, b, k) && Quick(w, k, c)
    ensures !Overtaken(w, b, k, BUFFER_SIZE)
  {
    hide Seen, HandledWithin, Overtaken;
    SeenLag(w, latency, k);
    YoungIsSafe(w, b, k, BUFFER_SIZE);
  }

  // So of all a call copies nothing is overtaken, if the handler and the copies are quick.
  lemma ReadingInTime(w: World, k: nat, b: nat, n: nat, nonblock: bool, patience: nat, latency: nat, c: nat)
    requires HandledWithin(w.events, latency) && BUFFER_PER_IRQ + latency + c < MARGIN
    requires AllQuick(w, Reading(w, k, b, n, nonblock, patience).copies, c)
    ensures AllSafe(w, Reading(w, k, b, n, nonblock, patience).copies)
  {
    hide Seen, HandledWithin, Overtaken, Reading, Quick;
    var h := Reading(w, k, b, n, nonblock, patience);
    ReadingBooks(w, k, b, n, nonblock, patience);
    forall x | x in h.copies
      ensures !Overtaken(w, x, h.copies[x], BUFFER_SIZE)
    {
      MarginIsEnough(w, x, h.copies[x], latency, c);
    }
  }

  /* Nothing less is enough: a handler that is as late as it may be once, for the
     interrupt of buffer 160, and otherwise always in time. */

  const HELD: nat := 161

  function Choice(latency: nat, s: Dma): Event {
    if s.raised != 0 && (s.raised == HELD ==> s.done >= HELD + latency) then Irq else Work
  }

  function Late(latency: nat, t: nat): Dma {
    if t == 0 then START else Step(Late(latency, t - 1), Choice(latency, Late(latency, t - 1)))
  }

  function LateEvents(latency: nat): Events { (t: nat) => Choice(latency, Late(latency, t)) }

  lemma {:induction false} LateIsRun(latency: nat, t: nat)
    ensures Run(LateEvents(latency), t) == Late(latency, t)
  {
    hide Choice, Step;
    if t > 0 {
      LateIsRun(latency, t - 1);
    }
  }

  // The count after the latest interrupt answered at once.
  function Answered(done: nat): nat {
    if done == 0 then 0 else (done - 1) / BUFFER_PER_IRQ * BUFFER_PER_IRQ + 1
  }

  predicate OnCourse(latency: nat, s: Dma) {
    && s.last == s.hw <= s.done && s.pos <= BUFFER_SIZE
    && (s.raised != 0 && s.raised != HELD ==> s.raised == s.done && s.pos == 0 && (s.done - 1) % BUFFER_PER_IRQ == 0)
    && (s.raised == HELD ==> HELD <= s.done <= HELD + latency && s.hw == HELD - BUFFER_PER_IRQ
                             && (s.done == HELD + latency ==> s.pos == 0))
    && (s.done < HELD ==> s.hw == if s.raised == 0 then Answered(s.done) else Answered(s.done - 1))
  }

  lemma StepOnCourse(latency: nat, s: Dma)
    requires OnCourse(latency, s) && latency < PERIOD - BUFFER_PER_IRQ
    ensures OnCourse(latency, Step(s, Choice(latency, s)))
  {
    hide Reconstruct, Interrupting;
    InterruptingEvery32(s.done);
    if Choice(latency, s) == Irq {
      ReconstructAdvance(s.hw, s.done);
    }
  }

  lemma {:induction false} LateOnCourse(latency: nat, t: nat)
    requires latency < PERIOD - BUFFER_PER_IRQ
    ensures OnCourse(latency, Late(latency, t))
  {
    hide Step, Choice;
    if t > 0 {
      LateOnCourse(latency, t - 1);
      StepOnCourse(latency, Late(latency, t - 1));
    }
  }

  // Some time the buffer before d is complete, and just then.
  lemma {:induction false} Reach(latency: nat, d: nat) returns (t: nat)
    requires latency < PERIOD - BUFFER_PER_IRQ
    ensures Late(latency, t).done == d && Late(latency, t).pos == 0
    ensures HELD <= d <= HELD + latency ==> Late(latency, t).raised == HELD
  {
    hide Reconstruct, Late;
    if d == 0 {
      t := 0;
      LateStarts(latency);
      return;
    }
    t := Reach(latency, d - 1);
    t := Onward(latency, t);
    while Late(latency, t).pos < BUFFER_SIZE
      invariant OnCourse(latency, Late(latency, t)) && Choice(latency, Late(latency, t)) == Work
      invariant Late(latency, t).done == d - 1
      invariant HELD <= d - 1 < HELD + latency ==> Late(latency, t).raised == HELD
      decreases BUFFER_SIZE - Late(latency, t).pos
    {
      LateNext(latency, t);
      t := t + 1;
      LateOnCourse(latency, t);
    }
    LateNext(latency, t);
    InterruptingEvery32(d - 1);
    t := t + 1;
  }

  // From a fresh completion, past the interrupt if it is answered now.
  lemma Onward(latency: nat, t: nat) returns (u: nat)
    requires latency < PERIOD - BUFFER_PER_IRQ && Late(latency, t).pos == 0
    ensures u >= t && OnCourse(latency, Late(latency, u)) && Choice(latency, Late(latency, u)) == Work
    ensures Late(latency, u).done == Late(latency, t).done && Late(latency, u).pos == 0
    ensures Choice(latency, Late(latency, t)) == Work ==> u == t
  {
    hide Reconstruct, Late;
    LateOnCourse(latency, t);
    u := t;
    if Choice(latency, Late(latency, t)) == Irq {
      LateNext(latency, t);
      u := t + 1;
      LateOnCourse(latency, u);
    }
  }

  lemma LateStarts(latency: nat)
    ensures Late(latency, 0) == START
  {
  }

  lemma LateNext(latency: nat, t: nat)
    ensures Late(latency, t + 1) == Step(Late(latency, t), Choice(latency, Late(latency, t)))
  {
    hide Step, Choice;
  }

  lemma LateIsWithin(latency: nat)
    requires latency < PERIOD - BUFFER_PER_IRQ
    ensures HandledWithin(LateEvents(latency), latency)
  {
    hide Late;
    forall t: nat
      ensures var s := Run(LateEvents(latency), t); s.raised != 0 ==> s.done - s.raised <= latency
    {
      LateIsRun(latency, t);
      LateOnCourse(latency, t);
    }
  }

  // There a first read, for two buffers, finds the handler about to answer: buffer 0 is
  // lost, buffer 1 is half a ring behind and copied, and the engine is back in its slot at
  // the first byte.
  lemma LateIsTorn(latency: nat) returns (w: World)
    requires BUFFER_PER_IRQ + latency <= MARGIN
    ensures HandledWithin(w.events, latency)
    ensures Reading(w, 0, 0, 2, false, 0) == Haul(2, 5 + BUFFER_SIZE, {0}, map[1 := 5])
    ensures Quick(w, 5, MARGIN - BUFFER_PER_IRQ - latency) && Overtaken(w, 1, 5, BUFFER_SIZE)
  {
    hide Late, Step, Run, LateEvents, HandledWithin, Reading;
    LateIsWithin(latency);
    var t := Reach(latency, HELD + latency);
    var u := Reach(latency, BUFFER_COUNT + 1);
    u := Onward(latency, u);
    LateAfterWork(latency, u);
    LateOnCourse(latency, t);
    LateIsRun(latency, t);
    LateIsRun(latency, u + 1);
    if u + 1 < t {
      RunMonotone(LateEvents(latency), u + 1, t);
      assert false;
    }
    w := World(LateEvents(latency), (k: nat) => if k == 0 then t else if k == 5 then u + 1 - t else 0);
    SeenTwice(w, t, u + 1, BUFFER_SIZE - 1);
    assert OvertakenAt(w, 1, 5, 0);
    LateReading(w);
  }

  lemma LateReading(w: World)
    requires forall k: nat | 1 <= k <= 5 :: Seen(w, k).hw == HELD - BUFFER_PER_IRQ
    ensures Reading(w, 0, 0, 2, false, 0) == Haul(2, 5 + BUFFER_SIZE, {0}, map[1 := 5])
  {
    hide Seen, Turns;
    var h := Haul(0, 1, {}, map[]);
    assert Seen(w, 1).hw == Seen(w, 2).hw == Seen(w, 3).hw == Seen(w, 4).hw == Seen(w, 5).hw == HELD - BUFFER_PER_IRQ;
    TurnsNext(w, h, 2);
    TurnsNext(w, Turn(w, h), 1);
    TurnsNext(w, Turn(w, Turn(w, h)), 0);
    assert Turn(w, h) == Haul(1, 3, {0}, map[]);
  }

  lemma LateAfterWork(latency: nat, u: nat)
    requires Late(latency, u).pos == 0 && Choice(latency, Late(latency, u)) == Work
    ensures Late(latency, u + 1).done == Late(latency, u).done && Late(latency, u + 1).pos == 1
  {
    hide Choice;
    LateNext(latency, u);
  }

  // Accesses at two moments only.
  lemma {:induction false} SeenTwice(w: World, t: nat, u: nat, n: nat)
    requires t <= u && w.delay(0) == t && w.delay(5) == u - t
    requires forall k: nat | k != 0 && k != 5 :: w.delay(k) == 0
    ensures forall k: nat | 1 <= k <= 5 :: Clock(w, k) == t
    ensures Clock(w, 6 + n) == u && Clock(w, 6) == u
  {
    ClockNext(w, 0);
    ClockNext(w, 1);
    ClockNext(w, 2);
    ClockNext(w, 3);
    ClockNext(w, 4);
    ClockNext(w, 5);
    if n > 0 {
      SeenTwice(w, t, u, n - 1);
      ClockNext(w, 6 + n - 1);
    }
  }

  // All the copies a read makes are quick, or are safe from the engine.
  ghost predicate AllQuick(w: World, copies: map<nat, nat>, c: nat) {
    forall b | b in copies :: Quick(w, copies[b], c)
  }

  ghost predicate AllSafe(w: World, copies: map<nat, nat>) {
    forall b | b in copies :: !Overtaken(w, b, copies[b], BUFFER_SIZE)
  }

  /** The bound is exact: with latency L and at most C buffers completing during any one
      copy, no call of litepcie_read in any world copies a buffer that is overtaken iff
      32 + L + C is less than half the ring. */
  lemma MarginIsTight(latency: nat, c: nat)
    ensures (forall w: World, k: nat, b: nat, n: nat, nonblock: bool, patience: nat |
               HandledWithin(w.events, latency) && AllQuick(w, Reading(w, k, b, n, nonblock, patience).copies, c) ::
               AllSafe(w, Reading(w, k, b, n, nonblock, patience).copies))
            <==> 32 + latency + c < 128
  {
    hide Seen, HandledWithin, Overtaken, Completions, Reading;
    if BUFFER_PER_IRQ + latency + c < MARGIN {
      forall w: World, k: nat, b: nat, n: nat, nonblock: bool, patience: nat |
          HandledWithin(w.events, latency) && AllQuick(w, Reading(w, k, b, n, nonblock, patience).copies, c)
        ensures AllSafe(w, Reading(w, k, b, n, nonblock, patience).copies)
      {
        ReadingInTime(w, k, b, n, nonblock, patience, latency, c);
      }
    } else {
      var l := Min(latency, MARGIN - BUFFER_PER_IRQ);
      var w := LateIsTorn(l);
      LaterIsWithin(w.events, l, latency);
      var h := Reading(w, 0, 0, 2, false, 0);
      assert AllQuick(w, h.copies, c) && 1 in h.copies && !AllSafe(w, h.copies);
    }
  }

  lemma LaterIsWithin(events: Events, l: nat, latency: nat)
    requires HandledWithin(events, l) && l <= latency
    ensures HandledWithin(events, latency)
  {
    hide Run;
  }

  /* The transmit side of it: how far ahead of the count a buffer must be when filling
     begins, for the engine not to take a byte before it is stored. */

  // The same handler, c buffers later, and the engine at the first byte of a buffer that
  // was as far ahead as given.
  lemma LateIsCaught(latency: nat, c: nat, lead: nat) returns (w: World, b: nat)
    requires latency < PERIOD - BUFFER_PER_IRQ && lead <= BUFFER_PER_IRQ + latency + c
    ensures HandledWithin(w.events, latency) && Quick(w, 1, c)
    ensures b == Seen(w, 1).hw + lead && TxSchedule.Caught(w, b, 1, BUFFER_SIZE)
  {
    hide Late, Step, Run, LateEvents, HandledWithin;
    LateIsWithin(latency);
    var t := Reach(latency, HELD + latency);
    var u := Reach(latency, HELD + latency + c);
    u := Onward(latency, u);
    LateAfterWork(latency, u);
    LateOnCourse(latency, t);
    LateIsRun(latency, t);
    LateIsRun(latency, u + 1);
    if u + 1 < t {
      RunMonotone(LateEvents(latency), u + 1, t);
      assert false;
    }
    w := World(LateEvents(latency), (k: nat) => if k == 0 then t else if k == 1 then u + 1 - t else 0);
    b := HELD - BUFFER_PER_IRQ + lead;
    SeenOnceMore(w, t, u + 1, 0);
    SeenOnceMore(w, t, u + 1, BUFFER_SIZE - 1);
    assert TxSchedule.CaughtAt(w, b, 1, 0);
  }

  lemma {:induction false} SeenOnceMore(w: World, t: nat, u: nat, n: nat)
    requires t <= u && w.delay(0) == t && w.delay(1) == u - t && forall k: nat | k >= 2 :: w.delay(k) == 0
    ensures Clock(w, 1) == t && Clock(w, 2 + n) == u
  {
    ClockNext(w, 0);
    ClockNext(w, 1);
    if n > 0 {
      SeenOnceMore(w, t, u, n - 1);
      ClockNext(w, 2 + n - 1);
    }
  }

  /** A lead over the count is enough, in every world with latency L and for every filling
      during which at most C buffers complete, iff it is more than 32 + L + C. */
  lemma LeadIsTight(latency: nat, c: nat, lead: nat)
    requires latency < PERIOD - BUFFER_PER_IRQ
    ensures (forall w: World, b: nat, k: nat |
               HandledWithin(w.events, latency) && Quick(w, k, c) && b >= Seen(w, k).hw + lead ::
               !TxSchedule.Caught(w, b, k, BUFFER_SIZE))
            <==> lead > 32 + latency + c
  {
    hide Seen, HandledWithin, TxSchedule.Caught;
    if lead > BUFFER_PER_IRQ + latency + c {
      forall w: World, b: nat, k: nat | HandledWithin(w.events, latency) && Quick(w, k, c) && b >= Seen(w, k).hw + lead
        ensures !TxSchedule.Caught(w, b, k, BUFFER_SIZE)
      {
        TxSchedule.LeadIsEnough(w, b, k, latency, c);
      }
    } else {
      var w, b := LateIsCaught(latency, c, lead);
    }
  }
}
