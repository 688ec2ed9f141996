/** The transmit direction ("DMA reader"): the driver fills the ring ahead of the
    FPGA. As on the receive side, an arbitrary number of engine and interrupt
    events takes place before every access of the driver to shared state. */
module TxRing {
  import opened Config
  import opened Counter
  import opened Bits
  import opened Descriptors
  import opened Engine
  import opened Memory
  import opened TxSchedule

  /** Filling a buffer: it begins after access `start`, and byte j of the data is stored
      at access start + 1 + j. */
  datatype Fill = Fill(start: nat, data: seq<byte>)

  type Fills = map<nat, Fill>

  // Byte j of buffer x is stored at or before access a.
  predicate StoredBy(fills: Fills, x: nat, j: nat, a: nat) {
    x in fills && j < |fills[x].data| && fills[x].start + 1 + j <= a
  }

  // What then stands at byte j of x's slot, if no later buffer is filled there: the
  // byte of the last buffer stored.
  function Current(fills: Fills, a: nat, x: nat, j: nat): byte
    decreases x
  {
    if StoredBy(fills, x, j, a) then fills[x].data[j]
    else if x < BUFFER_COUNT then 0
    else Current(fills, a, x - BUFFER_COUNT, j)
  }

  // Byte j of buffer x is stored before the FPGA takes byte j of buffer b.
  predicate StoredBefore(w: World, fills: Fills, x: nat, b: nat, j: nat) {
    && x in fills && j < |fills[x].data|
    && Moved(Seen(w, fills[x].start + 1 + j)) <= Offset(b, j)
  }

  /** What the FPGA finds at byte j of buffer b: b's own if it is stored by then, else what
      stands there from the buffers x, x - 256, .. filled before. */
  function Standing(w: World, fills: Fills, x: nat, b: nat, j: nat): byte
    decreases x
  {
    if StoredBefore(w, fills, x, b, j) then fills[x].data[j]
    else if x < BUFFER_COUNT then 0
    else Standing(w, fills, x - BUFFER_COUNT, b, j)
  }

  // All that was sent, byte by byte.
  ghost predicate SentIs(w: World, sent: seq<byte>, fills: Fills) {
    forall b: nat, j: nat {:trigger Offset(b, j)} | j < BUFFER_SIZE && Offset(b, j) < |sent| ::
      sent[Offset(b, j)] == Standing(w, fills, b, b, j)
  }

  // The ring when the FPGA works at buffer `done`, with all stores up to access a made.
  ghost predicate Holding(mem: seq<byte>, fills: Fills, done: nat, a: nat) {
    && |mem| == RING_BYTES
    && forall b: nat, j: nat {:trigger Address(b, j)} | j < BUFFER_SIZE && done <= b < done + BUFFER_COUNT ::
         mem[Address(b, j)] == Current(fills, a, b, j)
  }

  // Ring and wire together, when the driver has dealt with the buffers below `frontier`.
  ghost predicate Wired(mem: seq<byte>, w: World, sent: seq<byte>, fills: Fills, frontier: nat, done: nat, a: nat) {
    && (forall b | b in fills :: b < frontier)
    && Holding(mem, fills, done, a)
    && SentIs(w, sent, fills)
  }

  // Between accesses a and a + 1 the FPGA takes a byte: what is stored by access a is
  // what is stored before.
  lemma {:induction false} CurrentIsStanding(w: World, fills: Fills, a: nat, now: nat, x: nat, b: nat, j: nat)
    requires Clock(w, a) <= now < Clock(w, a + 1)
    requires w.events(now) == Work && Run(w.events, now).pos == j < BUFFER_SIZE && Run(w.events, now).done == b
    ensures Current(fills, a, x, j) == Standing(w, fills, x, b, j)
    decreases x
  {
    hide Run, Clock;
    if x in fills && j < |fills[x].data| {
      TakenBetween(w, a, now, fills[x].start + 1 + j, b, j);
    }
    if x >= BUFFER_COUNT {
      CurrentIsStanding(w, fills, a, now, x - BUFFER_COUNT, b, j);
    }
  }

  lemma TakenBetween(w: World, a: nat, now: nat, i: nat, b: nat, j: nat)
    requires Clock(w, a) <= now < Clock(w, a + 1)
    requires w.events(now) == Work && Run(w.events, now).pos == j < BUFFER_SIZE && Run(w.events, now).done == b
    ensures i <= a <==> Moved(Seen(w, i)) <= Offset(b, j)
  {
    hide Run, Clock;
    if i <= a {
      ClockMonotone(w, i, a);
      RunMonotone(w.events, Clock(w, i), now);
    } else {
      ClockMonotone(w, a + 1, i);
      RunNext(w.events, now);
      RunMonotone(w.events, now + 1, Clock(w, i));
    }
  }

  lemma SendByte(mem: seq<byte>, w: World, fills: Fills, sent: seq<byte>, a: nat, now: nat, done: nat, pos: nat)
    requires pos < BUFFER_SIZE && |sent| == Offset(done, pos)
    requires Holding(mem, fills, done, a) && SentIs(w, sent, fills)
    requires Clock(w, a) <= now < Clock(w, a + 1)
    requires w.events(now) == Work && Run(w.events, now).pos == pos && Run(w.events, now).done == done
    ensures SentIs(w, sent + [mem[Address(done, pos)]], fills)
  {
    hide Run, Clock, Standing, Current, Address;
    CurrentIsStanding(w, fills, a, now, done, done, pos);
    forall b: nat, j: nat | j < BUFFER_SIZE && Offset(b, j) < |sent| + 1
      ensures (sent + [mem[Address(done, pos)]])[Offset(b, j)] == Standing(w, fills, b, b, j)
    {
      if Offset(b, j) == |sent| {
        assert b == done && j == pos;
      }
    }
  }

  // The FPGA is done with a buffer: its slot is the next lap's, not filled yet.
  lemma HoldingNext(mem: seq<byte>, fills: Fills, done: nat, a: nat)
    requires Holding(mem, fills, done, a) && done + BUFFER_COUNT !in fills
    ensures Holding(mem, fills, done + 1, a)
  {
    SameSlot(done, 1);
    forall b: nat, j: nat | j < BUFFER_SIZE && done + 1 <= b < done + 1 + BUFFER_COUNT
      ensures mem[Address(b, j)] == Current(fills, a, b, j)
    {
      if b == done + BUFFER_COUNT {
        assert Address(b, j) == Address(done, j);
      }
    }
  }

  // Beginning to fill a buffer changes nothing about the past.
  lemma {:induction false} CurrentKept(fills: Fills, b: nat, f: Fill, a: nat, x: nat, j: nat)
    requires b !in fills && f.start >= a
    ensures Current(fills[b := f], a, x, j) == Current(fills, a, x, j)
    decreases x
  {
    if x >= BUFFER_COUNT {
      CurrentKept(fills, b, f, a, x - BUFFER_COUNT, j);
    }
  }

  lemma {:induction false} StandingKept(w: World, fills: Fills, y: nat, f: Fill, a: nat, x: nat, b: nat, j: nat)
    requires y !in fills && f.start >= a && Offset(b, j) < Moved(Seen(w, a))
    ensures Standing(w, fills[y := f], x, b, j) == Standing(w, fills, x, b, j)
    decreases x
  {
    hide Seen;
    SeenMonotone(w, a, f.start + 1 + j);
    if x >= BUFFER_COUNT {
      StandingKept(w, fills, y, f, a, x - BUFFER_COUNT, b, j);
    }
  }

  lemma BeginFill(mem: seq<byte>, w: World, fills: Fills, sent: seq<byte>, done: nat, b: nat, f: Fill)
    requires Holding(mem, fills, done, f.start) && SentIs(w, sent, fills) && b !in fills
    requires |sent| == Moved(Seen(w, f.start))
    ensures Holding(mem, fills[b := f], done, f.start) && SentIs(w, sent, fills[b := f])
  {
    hide Seen, Current, Standing;
    forall x: nat, j: nat | j < BUFFER_SIZE && done <= x < done + BUFFER_COUNT
      ensures mem[Address(x, j)] == Current(fills[b := f], f.start, x, j)
    {
      CurrentKept(fills, b, f, f.start, x, j);
    }
    forall x: nat, j: nat | j < BUFFER_SIZE && Offset(x, j) < |sent|
      ensures sent[Offset(x, j)] == Standing(w, fills[b := f], x, x, j)
    {
      StandingKept(w, fills, b, f, f.start, x, x, j);
    }
  }

  // No buffer is being filled at access a + 1 or later.
  ghost predicate Quiet(fills: Fills, a: nat) {
    forall x | x in fills :: fills[x].start + |fills[x].data| <= a
  }

  lemma {:induction false} CurrentQuiet(fills: Fills, a: nat, x: nat, j: nat)
    requires Quiet(fills, a)
    ensures Current(fills, a + 1, x, j) == Current(fills, a, x, j)
    decreases x
  {
    if x >= BUFFER_COUNT {
      CurrentQuiet(fills, a, x - BUFFER_COUNT, j);
    }
  }

  lemma HoldingQuiet(mem: seq<byte>, fills: Fills, done: nat, a: nat)
    requires Holding(mem, fills, done, a) && Quiet(fills, a)
    ensures Holding(mem, fills, done, a + 1)
  {
    hide Current, Quiet;
    forall x: nat, j: nat | j < BUFFER_SIZE && done <= x < done + BUFFER_COUNT
      ensures mem[Address(x, j)] == Current(fills, a + 1, x, j)
    {
      CurrentQuiet(fills, a, x, j);
    }
  }

  // Only buffer b is being filled, and at access a + 1 its byte i is stored.
  ghost predicate Storing(fills: Fills, b: nat, i: nat, a: nat) {
    && b in fills && i < |fills[b].data| && fills[b].start + i == a
    && (forall x | x in fills && x != b :: x < b && fills[x].start + |fills[x].data| <= fills[b].start)
  }

  lemma {:induction false} CurrentStored(fills: Fills, b: nat, i: nat, a: nat, x: nat, j: nat)
    requires Storing(fills, b, i, a)
    ensures Current(fills, a + 1, x, j) ==
            if j == i && x >= b && Slot(x) == Slot(b) then fills[b].data[i] else Current(fills, a, x, j)
    decreases x
  {
    if x >= BUFFER_COUNT && x != b {
      CurrentStored(fills, b, i, a, x - BUFFER_COUNT, j);
      SlotBefore(x, b);
    } else if x >= BUFFER_COUNT {
      CurrentStored(fills, b, i, a, x - BUFFER_COUNT, j);
    }
  }

  lemma SlotBefore(x: nat, b: nat)
    requires x >= BUFFER_COUNT
    ensures Slot(x - BUFFER_COUNT) == Slot(x)
    ensures x > b && Slot(x) == Slot(b) ==> x - BUFFER_COUNT >= b
  {
    if b < x < b + BUFFER_COUNT {
      SlotsApart(b, x);
    }
  }

  lemma StoreByte(mem: seq<byte>, fills: Fills, done: nat, b: nat, i: nat, a: nat)
    requires Holding(mem, fills, done, a) && Storing(fills, b, i, a) && i < BUFFER_SIZE && b < done + BUFFER_COUNT
    ensures Holding(mem[Address(b, i) := fills[b].data[i]], fills, done, a + 1)
  {
    hide Current;
    var next := mem[Address(b, i) := fills[b].data[i]];
    forall x: nat, j: nat | j < BUFFER_SIZE && done <= x < done + BUFFER_COUNT
      ensures next[Address(x, j)] == Current(fills, a + 1, x, j)
    {
      CurrentStored(fills, b, i, a, x, j);
      SameAddressIff(x, j, b, i);
      if Slot(x) == Slot(b) && x < b {
        SlotsApart(x, b);
      }
    }
  }

  lemma SameAddressIff(x: nat, j: nat, b: nat, i: nat)
    requires j < BUFFER_SIZE && i < BUFFER_SIZE
    ensures Address(x, j) == Address(b, i) <==> Slot(x) == Slot(b) && j == i
  {
  }

  // What a call adds: the buffers it filled, with the data at their place.
  function NewFills(data: seq<byte>, first: nat, starts: map<nat, nat>): Fills {
    map b | b in starts && first <= b && Offset(b - first + 1, 0) <= |data| ::
      Fill(starts[b], data[Offset(b - first, 0)..Offset(b - first + 1, 0)])
  }

  lemma NewFillsNext(data: seq<byte>, first: nat, starts: map<nat, nat>, b: nat, k: nat)
    requires first <= b && Offset(b - first + 1, 0) <= |data|
    ensures NewFills(data, first, starts[b := k]) ==
            NewFills(data, first, starts)[b := Fill(k, data[Offset(b - first, 0)..Offset(b - first + 1, 0)])]
  {
  }

  /* What it comes to */

  lemma WiredSent(mem: seq<byte>, w: World, sent: seq<byte>, fills: Fills, frontier: nat, done: nat, a: nat)
    requires Wired(mem, w, sent, fills, frontier, done, a)
    ensures SentIs(w, sent, fills)
  {
  }

  // Of a buffer that was not caught exactly its data is sent.
  lemma SafeIsSent(w: World, sent: seq<byte>, fills: Fills, b: nat, j: nat)
    requires SentIs(w, sent, fills) && b in fills && j < |fills[b].data| <= BUFFER_SIZE && Offset(b, j) < |sent|
    requires !CaughtAt(w, b, fills[b].start, j)
    ensures sent[Offset(b, j)] == fills[b].data[j]
  {
    hide Seen;
  }

  // And of no other: the first n bytes of a buffer are sent as given, whatever they are,
  // iff the engine takes none of them before it is stored.
  lemma FillRightIff(w: World, fills: Fills, b: nat, k: nat, n: nat)
    ensures (forall data: seq<byte>, j: nat | |data| == n && j < n ::
               Standing(w, fills[b := Fill(k, data)], b, b, j) == data[j])
            <==> !Caught(w, b, k, n)
  {
    hide Seen;
    if j: nat :| j < n && CaughtAt(w, b, k, j) {
      var zeros, ones := seq(n, _ => 0), seq(n, _ => 1);
      StandingBelow(w, fills, b, Fill(k, zeros), Fill(k, ones), b, j);
      assert Standing(w, fills[b := Fill(k, zeros)], b, b, j) != zeros[j] ||
             Standing(w, fills[b := Fill(k, ones)], b, b, j) != ones[j];
    } else {
      forall data: seq<byte>, j: nat | |data| == n && j < n
        ensures Standing(w, fills[b := Fill(k, data)], b, b, j) == data[j]
      {
        assert !CaughtAt(w, b, k, j);
      }
    }
  }

  // What stands there otherwise does not depend on the buffer's own data.
  lemma {:induction false} StandingBelow(w: World, fills: Fills, b: nat, f: Fill, g: Fill, x: nat, j: nat)
    requires x == b ==> !StoredBefore(w, fills[b := f], b, b, j) && !StoredBefore(w, fills[b := g], b, b, j)
    requires x <= b
    ensures Standing(w, fills[b := f], x, b, j) == Standing(w, fills[b := g], x, b, j)
    decreases x
  {
    hide Seen;
    if x >= BUFFER_COUNT {
      StandingBelow(w, fills, b, f, g, x - BUFFER_COUNT, j);
    }
  }

  lemma NoFills(data: seq<byte>, first: nat, fills: Fills)
    ensures fills == fills + NewFills(data, first, map[])
  {
  }

  // One turn of the loop with room for a buffer.
  lemma TurnWrote(w: World, data: seq<byte>, first: nat, l: Load, isLate: bool, fills: Fills)
    requires Booked(w, first, l) && l.next - Seen(w, l.at + 1).hw < MARGIN
    requires isLate <==> l.next - Seen(w, l.at + 2).hw < 0
    requires first <= l.next && Offset(l.next - first + 1, 0) <= |data|
    ensures var t := Turn(w, l);
            && Booked(w, first, t) && |t.late| == |l.late| + (if isLate then 1 else 0)
            && t.next == l.next + 1 && t.at == l.at + (if isLate then 2 else 2 + BUFFER_SIZE)
            && Wrote(data, first, l, t, isLate, fills)
  {
    hide Seen, Booked, Turn, NewFills, Wrote;
    TurnBooks(w, first, l);
    TurnIs(w, l);
    TurnFills(w, data, first, l, isLate, fills);
  }

  ghost predicate Wrote(data: seq<byte>, first: nat, l: Load, t: Load, isLate: bool, fills: Fills)
    requires first <= l.next && Offset(l.next - first + 1, 0) <= |data|
  {
    var before, after := fills + NewFills(data, first, l.fills), fills + NewFills(data, first, t.fills);
    after == if isLate then before
             else before[l.next := Fill(l.at + 2, data[Offset(l.next - first, 0)..Offset(l.next - first + 1, 0)])]
  }

  lemma TurnFills(w: World, data: seq<byte>, first: nat, l: Load, isLate: bool, fills: Fills)
    requires first <= l.next && Offset(l.next - first + 1, 0) <= |data|
    requires isLate <==> l.next - Seen(w, l.at + 2).hw < 0
    ensures Wrote(data, first, l, Turn(w, l), isLate, fills)
  {
    hide Seen, NewFills;
    MoreFills(data, first, l.fills, l.next, l.at + 2, fills);
  }

  lemma MoreFills(data: seq<byte>, first: nat, starts: map<nat, nat>, b: nat, k: nat, fills: Fills)
    requires first <= b && Offset(b - first + 1, 0) <= |data|
    ensures fills + NewFills(data, first, starts[b := k]) ==
            (fills + NewFills(data, first, starts))
              [b := Fill(k, data[Offset(b - first, 0)..Offset(b - first + 1, 0)])]
  {
    hide NewFills;
    NewFillsNext(data, first, starts, b, k);
  }

  lemma HoldingSize(mem: seq<byte>, fills: Fills, done: nat, a: nat)
    requires Holding(mem, fills, done, a)
    ensures |mem| == RING_BYTES
  {
  }

  class TxChannel {
    const w: World
    const ring: array<byte>   // reader_addr[0..256]

    var done: nat
    var pos: nat
    var raised: nat
    var accesses: nat         // made by the driver so far
    var now: nat

    var readerHwCount: nat
    var readerHwCountLast: nat
    var readerSwCount: nat

    var sent: seq<byte>       // what the FPGA has taken from the ring, in order
    ghost var frontier: nat   // stream buffers the driver has dealt with
    ghost var fills: Fills    // those it filled

    function State(): Dma
      reads this
    {
      Dma(done, pos, readerHwCount, readerHwCountLast, raised)
    }

    // With all stores up to access a made.
    ghost predicate Consistent(a: nat)
      reads this, ring
    {
      && ring.Length == RING_BYTES
      && State() == Run(w.events, now)
      && readerHwCount == readerHwCountLast <= done && pos <= BUFFER_SIZE
      && |sent| == Moved(State()) && frontier <= readerHwCount + MARGIN
      && Wired(ring[..], w, sent, fills, frontier, done, a)
    }

    // Between two accesses, with no buffer half filled.
    ghost predicate Valid()
      reads this, ring
    {
      Consistent(accesses) && now == Clock(w, accesses) && Quiet(fills, accesses)
    }

    // Through write(), the kernel's count says which buffer is filled next.
    ghost predicate Synced()
      reads this
    {
      readerSwCount == frontier
    }

    // litepcie_dma_reader_start: the counters are cleared and the engine enabled.
    constructor (w: World)
      ensures Valid() && fresh(ring) && this.w == w
      ensures accesses == 0 && readerSwCount == 0 && readerHwCount == 0 && sent == [] && frontier == 0 && fills == map[]
    {
      this.w := w;
      ring := new byte[RING_BYTES](_ => 0);
      done, pos, raised, accesses, now := 0, 0, 0, 0, 0;
      readerHwCount, readerHwCountLast, readerSwCount := 0, 0, 0;
      sent, frontier, fills := [], 0, map[];
    }

    // The DMA reader part of litepcie_interrupt.
    method Interrupt()
      modifies this`readerHwCount, this`readerHwCountLast
      ensures readerHwCountLast == readerHwCount
      ensures readerHwCount == Reconstruct(old(readerHwCount), old(readerHwCountLast), LoopStatus(done))
    {
      var loopStatus := LoopStatus(done);
      readerHwCount := And(readerHwCount, COUNT_MASK);
      readerHwCount := Or(readerHwCount, loopStatus / 0x1_0000 * BUFFER_COUNT + And(loopStatus, 0xffff));
      if readerHwCountLast > readerHwCount {
        readerHwCount := readerHwCount + PERIOD;
      }
      readerHwCountLast := readerHwCount;
    }

    // One step of the engine: take a byte, or complete the buffer.
    method Transfer(ghost a: nat)
      requires Consistent(a) && Clock(w, a) <= now < Clock(w, a + 1) && w.events(now) == Work
      modifies this`pos, this`done, this`raised, this`now, this`sent
      ensures Consistent(a) && now == old(now) + 1
    {
      hide Reconstruct, Holding, SentIs, Address, Clock;
      if pos < BUFFER_SIZE {
        SendByte(ring[..], w, fills, sent, a, now, done, pos);
        HoldingSize(ring[..], fills, done, a);
        sent := sent + [ring[Address(done, pos)]];
        pos := pos + 1;
      } else {
        HoldingNext(ring[..], fills, done, a);
        if raised == 0 && Interrupting(done) {
          raised := done + 1;
        }
        done, pos := done + 1, 0;
      }
      now := now + 1;
    }

    // One invocation of the handler; it answers all interrupts raised so far.
    method Handle(ghost a: nat)
      requires Consistent(a) && w.events(now) == Irq
      modifies this`raised, this`now, this`readerHwCount, this`readerHwCountLast
      ensures Consistent(a) && now == old(now) + 1
    {
      hide Reconstruct, Wired;
      Interrupt();
      RunIrq(w.events, now, old(State()), readerHwCount);
      RunMonotone(w.events, now, now + 1);
      raised, now := 0, now + 1;
      assert State() == Run(w.events, now);
    }

    // Up to the driver's next access to shared state the rest of the world runs.
    method Advance()
      requires Consistent(accesses) && now == Clock(w, accesses)
      modifies this`done, this`pos, this`raised, this`accesses, this`now, this`sent
      modifies this`readerHwCount, this`readerHwCountLast
      ensures Consistent(old(accesses)) && accesses == old(accesses) + 1 && now == Clock(w, accesses)
      ensures readerHwCount == Seen(w, accesses).hw && readerHwCount >= old(readerHwCount)
    {
      hide Wired, Run;
      ClockNext(w, accesses);
      SeenMonotone(w, accesses, accesses + 1);
      for k := 0 to w.delay(accesses)
        invariant Consistent(accesses) && now == old(now) + k && accesses == old(accesses)
      {
        if w.events(now) == Work {
          Transfer(accesses);
        } else {
          Handle(accesses);
        }
      }
      accesses := accesses + 1;
    }

    // An access that stores nothing.
    method Interleave()
      requires Valid()
      modifies this`done, this`pos, this`raised, this`accesses, this`now, this`sent
      modifies this`readerHwCount, this`readerHwCountLast
      ensures Valid() && accesses == old(accesses) + 1
      ensures readerHwCount == Seen(w, accesses).hw && readerHwCount >= old(readerHwCount)
    {
      hide Holding, SentIs, Run, Clock, Seen;
      Advance();
      HoldingQuiet(ring[..], fills, done, old(accesses));
    }

    // Fill the next buffer, byte by byte, with up to a buffer's worth of data.
    method FillNext(slot: nat, data: seq<byte>)
      requires Valid() && |data| <= BUFFER_SIZE && slot == Slot(frontier) && frontier < readerHwCount + MARGIN
      modifies this`done, this`pos, this`raised, this`accesses, this`now, this`sent, this`frontier, this`fills
      modifies this`readerHwCount, this`readerHwCountLast, ring
      ensures Valid() && accesses == old(accesses) + |data| && readerHwCount >= old(readerHwCount)
      ensures frontier == old(frontier) + 1
      ensures fills == old(fills)[old(frontier) := Fill(old(accesses), data)]
    {
      hide Holding, SentIs, Run, Clock, Slot;
      ghost var b, f := frontier, Fill(accesses, data);
      BeginFill(ring[..], w, fills, sent, done, b, f);
      fills, frontier := fills[b := f], b + 1;
      for i := 0 to |data|
        invariant Consistent(accesses) && now == Clock(w, accesses)
        invariant accesses == old(accesses) + i && readerHwCount >= old(readerHwCount)
        invariant frontier == b + 1 && fills == old(fills)[b := f]
      {
        Advance();
        StoreByte(ring[..], fills, done, b, i, accesses - 1);
        label L:
        ring[Offset(slot, i)] := data[i];
        assert ring[..] == old@L(ring[..])[Address(b, i) := data[i]];
      }
    }

    // The next n buffers are given up.
    ghost method Skip(n: nat)
      requires Valid() && frontier + n <= readerHwCount + MARGIN
      modifies this`frontier
      ensures Valid() && frontier == old(frontier) + n
    {
      hide Holding, SentIs, Run, Clock;
      frontier := frontier + n;
    }

    // How far the loop of litepcie_write is, if it was late so often and filled so much.
    ghost function Progress(late: set<nat>, starts: map<nat, nat>): Load
      reads this
    {
      Load(readerSwCount, accesses, late, starts)
    }

    // One turn of the loop of litepcie_write, for the buffer at readerSwCount.
    method WriteOne(data: array<byte>, at: nat) returns (more: bool, isLate: bool)
      requires Valid() && Synced() && data != ring && at + BUFFER_SIZE <= data.Length
      modifies this, ring
      ensures Valid() && Synced()
      ensures more <==> old(readerSwCount) - Seen(w, old(accesses) + 1).hw < MARGIN
      ensures isLate <==> more && old(readerSwCount) - Seen(w, old(accesses) + 2).hw < 0
      ensures accesses == old(accesses) + (if !more then 1 else if isLate then 2 else 2 + BUFFER_SIZE)
      ensures readerSwCount == old(readerSwCount) + (if more then 1 else 0)
      ensures fills == if !more || isLate then old(fills)
                       else old(fills)[old(readerSwCount) := Fill(old(accesses) + 2, data[at..at + BUFFER_SIZE])]
    {
      hide Holding, SentIs, Run, Clock, Seen, Quiet;
      more, isLate := false, false;
      Interleave();
      if readerSwCount - readerHwCount < MARGIN {
        Interleave();
        more := true;
        if readerSwCount - readerHwCount < 0 {
          isLate := true;
          Skip(1);
        } else {
          FillNext(Slot(readerSwCount), data[at..at + BUFFER_SIZE]);
        }
        readerSwCount := readerSwCount + 1;
      }
    }

    // wait_event_interruptible: look again until a buffer is free or, after
    // `patience` looks, a signal arrives.
    method WaitWritable(patience: nat) returns (ret: int)
      requires Valid()
      modifies this`done, this`pos, this`raised, this`accesses, this`now, this`sent
      modifies this`readerHwCount, this`readerHwCountLast
      ensures Valid() && accesses == WaitEnd(w, old(accesses), readerSwCount, patience)
      ensures ret == if Refused(w, old(accesses), readerSwCount, false, patience) then -ERESTARTSYS else 0
    {
      hide Valid, Seen;
      for looks := 0 to patience
        invariant Valid()
        invariant WaitEnd(w, old(accesses), readerSwCount, patience) ==
                  WaitEnd(w, accesses, readerSwCount, patience - looks)
      {
        Interleave();
        if readerSwCount - readerHwCount < MARGIN {
          return 0;
        }
      }
      Interleave();
      ret := if readerSwCount - readerHwCount < MARGIN then 0 else -ERESTARTSYS;
    }

    // The loop of litepcie_write.
    method WriteLoop(data: array<byte>, size: nat) returns (ret: nat, underflows: nat, ghost l: Load)
      requires Valid() && Synced() && data != ring && size <= data.Length
      modifies this, ring
      ensures Valid() && Synced()
      ensures l == Turns(w, old(Progress({}, map[])), size / BUFFER_SIZE)
      ensures l.next == readerSwCount && l.at == accesses
      ensures underflows == |l.late| && fills == old(fills) + NewFills(data[..], old(readerSwCount), l.fills)
      ensures ret == BUFFER_SIZE * (readerSwCount - old(readerSwCount)) <= size
    {
      hide Wired, Run, Clock, Seen, Quiet, Turn, Turns, Booked, NewFills;
      underflows, l := 0, Progress({}, map[]);
      ghost var first, n := readerSwCount, size / BUFFER_SIZE;
      BookNone(w, first, accesses);
      NoFills(data[..], first, fills);
      var i, len := 0, size;
      while len >= BUFFER_SIZE
        invariant Valid() && Synced() && l.next == readerSwCount && l.at == accesses
        invariant 0 <= i <= n && readerSwCount == first + i && 0 <= len == size - BUFFER_SIZE * i
        invariant Turns(w, l, n - i) == Turns(w, old(Progress({}, map[])), n)
        invariant underflows == |l.late| && Booked(w, first, l)
        invariant fills == old(fills) + NewFills(data[..], first, l.fills)
        decreases len
      {
        TurnsNext(w, l, n - i);
        var more, isLate := WriteOne(data, BUFFER_SIZE * i);
        if !more {
          l := l.(at := accesses);
          break;
        }
        TurnWrote(w, data[..], first, l, isLate, old(fills));
        l := Turn(w, l);
        if isLate {
          underflows := underflows + 1;
        }
        len := len - BUFFER_SIZE;
        i := i + 1;
      }
      TurnsNext(w, l, 0);
      ret := size - len;
    }

    /** litepcie_write. In every world it does what Writing says, and the buffers it fills
        are filled with the data offered for their place. */
    method Write(data: array<byte>, size: nat, nonblock: bool, patience: nat) returns (ret: int, underflows: nat)
      requires Valid() && Synced() && data != ring && size <= data.Length
      modifies this, ring
      ensures Valid() && Synced()
      ensures var l := old(Progress({}, map[]));
              var r := Writing(w, l, size / BUFFER_SIZE, nonblock, patience);
              && readerSwCount == r.next && accesses == r.at && underflows == |r.late|
              && ret == (if !Refused(w, l.at, l.next, nonblock, patience) then BUFFER_SIZE * (r.next - l.next)
                         else if nonblock then -EAGAIN else -ERESTARTSYS)
              && ret <= size
              && fills == old(fills) + NewFills(data[..], l.next, r.fills)
      ensures ret == -11 <==> nonblock && Seen(w, old(accesses) + 1).hw == old(readerSwCount)
      ensures ret == -512 <==> !nonblock && forall j: nat | old(accesses) < j <= old(accesses) + 1 + patience ::
                                         old(readerSwCount) - Seen(w, j).hw >= 128
      ensures ret != -11 && ret != -512 ==> ret == 8192 * (readerSwCount - old(readerSwCount))
      ensures !nonblock && size >= 8192 ==> ret == -512 || ret >= 8192
    {
      hide Valid, Seen, Turns, WaitEnd, NewFills, Refused;
      underflows := 0;
      ghost var start := Progress({}, map[]);
      RefusedIff(w, accesses, readerSwCount, nonblock, patience);
      if !nonblock && size >= 8192 && !Refused(w, accesses, readerSwCount, false, patience) {
        WaitsForOne(w, start, size / BUFFER_SIZE, patience);
      }
      NoFills(data[..], readerSwCount, fills);
      if nonblock {
        Interleave();
        ret := if readerHwCount == readerSwCount then -EAGAIN else 0;
      } else {
        ret := WaitWritable(patience);
      }
      if ret == 0 {
        ghost var l;
        ret, underflows, l := WriteLoop(data, size);
      }
    }

    // The DMA_READER ioctl on an enabled reader: a snapshot of both counts.
    method Counts() returns (hw: nat, sw: nat)
      requires Valid()
      modifies this`done, this`pos, this`raised, this`accesses, this`now, this`sent
      modifies this`readerHwCount, this`readerHwCountLast
      ensures Valid() && accesses == old(accesses) + 1
      ensures hw == readerHwCount == Seen(w, accesses).hw && hw >= old(readerHwCount) && sw == readerSwCount
    {
      Interleave();
      hw, sw := readerHwCount, readerSwCount;
    }

    // The MMAP_DMA_READER_UPDATE ioctl.
    method Update(sw: nat)
      requires Valid()
      modifies this`readerSwCount
      ensures Valid() && readerSwCount == sw
    {
      readerSwCount := sw;
    }

    // The POLLOUT part of litepcie_poll.
    method PollOut() returns (ready: bool)
      requires Valid()
      modifies this`done, this`pos, this`raised, this`accesses, this`now, this`sent
      modifies this`readerHwCount, this`readerHwCountLast
      ensures Valid() && accesses == old(accesses) + 1 && readerHwCount >= old(readerHwCount)
      ensures readerHwCount == Seen(w, accesses).hw
      ensures ready <==> readerSwCount < Seen(w, accesses).hw + MARGIN
    {
      Interleave();
      ready := readerSwCount - readerHwCount < MARGIN;
    }
  }
}
