/** The receive half of the user library's DMA control block: it fetches what the
    kernel has, by read() or by moving the kernel's count over the mapped ring, and
    hands it out one buffer at a time. */
module RxPort {
  import opened Config
  import opened Engine
  import opened Memory
  import opened RxSchedule
  import opened RxRing

  /** The receive side between two calls of the client: accesses made, the buffer to hand
      out next, how many are on offer, and what became of those before them. The
      kernel's count stands at next + available. */
  datatype Feed = Feed(at: nat, next: nat, available: nat, lost: set<nat>, copies: map<nat, nat>)

  const EMPTY: Feed := Feed(0, 0, 0, {}, map[])

  // read() into all of our memory.
  function Fetched(w: World, f: Feed): Feed {
    var sw := f.next + f.available;
    var h := Turns(w, Haul(sw, f.at + 1, {}, map[]), BUFFER_COUNT);
    Feed(h.at, sw, h.next - sw, f.lost + h.lost, f.copies + h.copies)
  }

  /** The receive half of litepcie_dma_process. Without an event on either side poll()
      times out and what is on offer stays; otherwise it is replaced. */
  function Poll(w: World, f: Feed, zeroCopy: bool, otherReady: bool): Feed {
    var sw, polled := f.next + f.available, f.(at := f.at + 2);
    if Seen(w, f.at + 2).hw <= sw + 2 then
      if otherReady then polled.(next := sw, available := 0) else polled
    else if zeroCopy then
      polled.(next := sw, available := (Seen(w, f.at + 1).hw - sw) % UINT_RANGE)
    else Fetched(w, polled)
  }

  // The client copies n bytes of the last buffer handed out from the mapped ring.
  function Taken(f: Feed, n: nat): Feed
    requires f.next > 0
  {
    f.(at := f.at + n, copies := f.copies[f.next - 1 := f.at])
  }

  // The copied ones among the buffers on offer stand in user memory.
  ghost predicate Buffered(buf: seq<byte>, w: World, stream: Stream, offset: nat, next: nat, available: nat,
          copies: map<nat, nat>) {
    forall b: nat | next <= b < next + available && b in copies ::
      CopyAt(buf, Offset(offset + b - next, 0), w, stream, b, copies[b])
  }

  // The bytes are the first ones of the copy of buffer b that began after access k.
  ghost predicate ChunkOf(chunk: seq<byte>, w: World, stream: Stream, b: nat, k: nat) {
    forall j: nat | j < |chunk| :: chunk[j] == Copied(w, stream, b, k, j)
  }

  // All these buffers are below `next`.
  ghost predicate Passed(lost: set<nat>, copies: map<nat, nat>, next: nat) {
    forall b | b in lost || b in copies :: b < next
  }

  // What read() brought, after what was read before.
  lemma DeliveredIsBuffered(before: seq<byte>, after: seq<byte>, w: World, stream: Stream,
                            sw: nat, h: Haul, lost: set<nat>, copies: map<nat, nat>)
    requires Delivered(before, after, w, stream, sw, h.next, h.copies) && Passed(lost, copies, sw)
    ensures Buffered(after, w, stream, 0, sw, h.next - sw, copies + h.copies)
  {
    hide CopyAt;
    forall b: nat | sw <= b < h.next && b in copies + h.copies
      ensures CopyAt(after, Offset(0 + b - sw, 0), w, stream, b, (copies + h.copies)[b])
    {
      assert DeliveredOne(before, after, w, stream, sw, b, h.copies);
    }
  }

  lemma PassedNext(w: World, sw: nat, h: Haul, lost: set<nat>, copies: map<nat, nat>)
    requires Booked(w, sw, h) && Passed(lost, copies, sw)
    ensures |lost + h.lost| == |lost| + |h.lost| && Passed(lost + h.lost, copies + h.copies, h.next)
    ensures sw <= Seen(w, h.at).hw ==> h.next <= Seen(w, h.at).hw
  {
    hide Seen, Admitted;
    assert lost !! h.lost;
  }

  // Slots as they were handed out, each after so many buffers had been left out.
  ghost predicate InSlots(handed: seq<nat>, gaps: seq<nat>) {
    |handed| == |gaps| && forall k: nat | k < |handed| :: handed[k] == (k + gaps[k]) % 256
  }

  lemma InSlotsNext(handed: seq<nat>, gaps: seq<nat>, dropped: nat)
    requires InSlots(handed, gaps)
    ensures InSlots(handed + [Slot(|handed| + dropped)], gaps + [dropped])
  {
  }

  lemma SlotNext(n: nat)
    ensures Slot(n + 1) == Slot(Slot(n) + 1)
  {
  }

  // Without gaps the slots are in step.
  lemma NoGaps(handed: seq<nat>, gaps: seq<nat>)
    requires InSlots(handed, gaps) && forall k: nat | k < |gaps| :: gaps[k] == 0
    ensures Continuous(handed)
  {
    hide Slot;
  }

  class Port {
    const chan: RxChannel
    const zeroCopy: bool
    const bufRd: array<byte>           // own memory, or the kernel's ring mapped

    var writerHwCount: nat
    var writerSwCount: nat
    var available: nat                 // buffers_available_read
    var offset: nat                    // usr_read_buf_offset
    var overflows: nat                 // buffers the driver reported lost

    ghost var next: nat                // stream number of the buffer to hand out next
    ghost var lost: set<nat>           // by all reads so far
    ghost var copies: map<nat, nat>    // by the driver, or by the client over the mapped ring
    ghost var handed: seq<nat>         // slots handed out so far
    ghost var gaps: seq<nat>           // and what had been dropped before each
    ghost var dropped: nat             // buffers fetched but never handed out

    ghost function State(): Feed
      reads this, chan
    {
      Feed(chan.accesses, next, available, lost, copies)
    }

    ghost function Given(): Hands
      reads this, chan
    {
      Hands(State(), dropped, gaps)
    }

    ghost predicate Valid()
      reads this, chan, chan.ring, bufRd
    {
      && chan.Valid()
      && bufRd.Length == RING_BYTES && (zeroCopy <==> bufRd == chan.ring)
      && chan.writerSwCount == next + available <= Seen(chan.w, chan.accesses).hw
      && offset < BUFFER_COUNT
      && Passed(lost, copies, next + available)
      && |lost| == overflows
      && next == |handed| + dropped
      && (zeroCopy ==> (available > 0 ==> offset == Slot(next)) && InSlots(handed, gaps))
      && (!zeroCopy ==> && offset + available <= BUFFER_COUNT
                        && Buffered(bufRd[..], chan.w, chan.stream, offset, next, available, copies))
    }

    // litepcie_dma_init and the start of the writer.
    constructor (w: World, stream: Stream, zeroCopy: bool)
      ensures Valid() && fresh(chan) && fresh(chan.ring) && fresh(bufRd)
      ensures chan.w == w && chan.stream == stream && this.zeroCopy == zeroCopy
      ensures State() == EMPTY && handed == [] && gaps == [] && dropped == 0
    {
      var c := new RxChannel(w, stream);
      this.chan, this.zeroCopy := c, zeroCopy;
      if zeroCopy {
        bufRd := c.ring;
      } else {
        bufRd := new byte[RING_BYTES](_ => 0);
      }
      writerHwCount, writerSwCount, available, offset, overflows := 0, 0, 0, 0, 0;
      next, lost, copies, handed, gaps, dropped := 0, {}, map[], [], [], 0;
    }

    /** The receive half of litepcie_dma_process. `otherReady` tells whether the
        transmit half makes poll() return; without any event, poll() times out. */
    method Process(otherReady: bool) returns (timedOut: bool)
      requires Valid()
      modifies this, chan, chan.ring, bufRd
      ensures Valid() && State() == Poll(chan.w, old(State()), zeroCopy, otherReady)
      ensures timedOut <==> !otherReady && Seen(chan.w, old(chan.accesses) + 2).hw <= old(next + available) + 2
      // What was not taken before is skipped, unless nothing happened.
      ensures next == old(next) + (if timedOut then 0 else old(available))
      ensures dropped == old(dropped) + (if timedOut then 0 else old(available))
      ensures handed == old(handed) && gaps == old(gaps)
    {
      hide Valid, Seen, Fetched;
      var ready := Look();
      timedOut := !ready && !otherReady;
      if timedOut {
        return;
      }
      if ready {
        if zeroCopy {
          FetchByMap();
        } else {
          FetchByRead();
        }
      } else {
        FetchNone();
      }
    }

    // A snapshot of the driver's counts, and poll().
    method Look() returns (ready: bool)
      requires Valid()
      modifies this`writerHwCount, this`writerSwCount, chan, chan.ring
      ensures Valid() && State() == old(State()).(at := old(chan.accesses) + 2)
      ensures ready <==> Seen(chan.w, old(chan.accesses) + 2).hw > next + available + 2
      ensures writerHwCount == Seen(chan.w, old(chan.accesses) + 1).hw
      ensures Snapshot()
    {
      hide RxChannel.Valid, Seen, Buffered, InSlots;
      SeenMonotone(chan.w, chan.accesses, chan.accesses + 1);
      SeenMonotone(chan.w, chan.accesses + 1, chan.accesses + 2);
      writerHwCount, writerSwCount := chan.Counts();
      ready := chan.PollIn();
    }

    // The counts are the kernel's, or were a little while ago.
    ghost predicate Snapshot()
      reads this, chan
    {
      writerSwCount == chan.writerSwCount == next + available <= writerHwCount <= Seen(chan.w, chan.accesses).hw
    }

    // Mapped ring: move the kernel's count up to the snapshot taken before poll().
    method FetchByMap()
      requires Valid() && zeroCopy && Snapshot()
      modifies this`available, this`offset, this`next, this`dropped, chan`writerSwCount
      ensures Valid() && dropped == old(dropped) + old(available)
      ensures State() == old(State()).(next := old(next + available),
                                       available := (writerHwCount - old(next + available)) % UINT_RANGE)
    {
      hide RxChannel.Valid, Seen, Buffered, InSlots;
      next, dropped := writerSwCount, dropped + available;
      available := (writerHwCount - writerSwCount) % UINT_RANGE;
      offset := Slot(writerSwCount);
      chan.Update(writerSwCount + available);
    }

    // Woken without data.
    method FetchNone()
      requires Valid()
      modifies this`available, this`next, this`dropped
      ensures Valid() && dropped == old(dropped) + old(available)
      ensures State() == old(State()).(next := old(next + available), available := 0)
    {
      hide RxChannel.Valid, Seen, Buffered, InSlots;
      next, dropped, available := chan.writerSwCount, dropped + available, 0;
      BufferedNone(bufRd[..], chan.w, chan.stream, offset, next, copies);
    }

    // read() into our own memory; the kernel is known to have data.
    method FetchByRead()
      requires Valid() && !zeroCopy && Seen(chan.w, chan.accesses).hw > next + available
      modifies this`available, this`offset, this`next, this`dropped, this`lost, this`copies, this`overflows
      modifies chan, chan.ring, bufRd
      ensures Valid()
      ensures next == old(next) + old(available) && dropped == old(dropped) + old(available)
      ensures State() == Fetched(chan.w, old(State()))
    {
      hide Passed, RxChannel.Valid, Seen, Buffered, InSlots, Booked, Reading, Refused, Fetched;
      ghost var sw := chan.writerSwCount;
      ghost var h := FullReading(chan.w, chan.accesses, sw);
      FetchedIs(chan.w, State(), h);
      PassedNext(chan.w, sw, h, lost, copies);
      var count, lostNow := Refill(h);
      next, dropped, lost, copies := sw, dropped + available, lost + h.lost, copies + h.copies;
      available, offset, overflows := count, 0, overflows + lostNow;
    }

    // The read() itself.
    method Refill(ghost h: Haul) returns (count: nat, lostNow: nat)
      requires Valid() && !zeroCopy && Booked(chan.w, chan.writerSwCount, h)
      requires h == Reading(chan.w, chan.accesses, chan.writerSwCount, BUFFER_COUNT, false, 0)
      requires !Refused(chan.w, chan.accesses, chan.writerSwCount, false, 0)
      modifies chan, chan.ring, bufRd
      ensures chan.Valid() && chan.accesses == h.at && chan.writerSwCount == h.next
      ensures h.next == old(chan.writerSwCount) + count && lostNow == |h.lost|
      ensures Buffered(bufRd[..], chan.w, chan.stream, 0, old(chan.writerSwCount), count, copies + h.copies)
    {
      hide RxChannel.Valid, Seen, Buffered, InSlots, Delivered, Intact, Booked, Reading, Refused;
      ghost var before, sw := bufRd[..], chan.writerSwCount;
      var len;
      len, lostNow := chan.Read(bufRd, RING_BYTES, false, 0);
      count := len / BUFFER_SIZE;
      DeliveredIsBuffered(before, bufRd[..], chan.w, chan.stream, sw, h, lost, copies);
    }

    /** litepcie_dma_next_read_buffer: the slot or place of the next buffer. */
    method NextReadBuffer() returns (r: Option<nat>)
      requires Valid()
      modifies this`available, this`offset, this`next, this`handed, this`gaps
      ensures Valid()
      ensures r.None? <==> old(available) == 0
      ensures r.None? ==> State() == old(State()) && handed == old(handed) && gaps == old(gaps)
      ensures r.Some? ==> State() == old(State()).(next := old(next) + 1, available := old(available) - 1)
      ensures r.Some? ==> r.value < BUFFER_COUNT && handed == old(handed) + [r.value] && gaps == old(gaps) + [dropped]
      ensures r.Some? && zeroCopy ==> r.value == Slot(old(next))
      ensures r.Some? && !zeroCopy && old(next) in copies ==>
                CopyAt(bufRd[..], Offset(r.value, 0), chan.w, chan.stream, old(next), copies[old(next)])
    {
      hide RxChannel.Valid, Seen, CopyAt, Buffered, InSlots, Slot;
      if available == 0 {
        return None;
      }
      SlotNext(next);
      if zeroCopy {
        InSlotsNext(handed, gaps, dropped);
      } else {
        BufferedNext(bufRd[..], chan.w, chan.stream, offset, next, available, copies);
      }
      available := available - 1;
      r := Some(offset);
      offset := Slot(offset + 1);
      next, handed, gaps := next + 1, handed + [r.value], gaps + [dropped];
    }

    /** The client takes the first n bytes of the buffer just handed out, which is buffer
        next - 1 of the stream. Over the mapped ring that is the copy, and the engine
        goes on meanwhile. */
    method Consume(at: nat, n: nat) returns (chunk: seq<byte>)
      requires Valid() && next > 0 && at < BUFFER_COUNT && n <= BUFFER_SIZE
      requires zeroCopy ==> at == Slot(next - 1)
      requires !zeroCopy && next - 1 in copies ==>
                 CopyAt(bufRd[..], Offset(at, 0), chan.w, chan.stream, next - 1, copies[next - 1])
      modifies this`copies, chan, chan.ring
      ensures Valid() && |chunk| == n
      ensures State() == if zeroCopy then Taken(old(State()), n) else old(State())
      ensures zeroCopy ==>
                chan.accesses == old(chan.accesses) + n && copies == old(copies)[next - 1 := old(chan.accesses)]
      ensures next - 1 in copies ==> ChunkOf(chunk, chan.w, chan.stream, next - 1, copies[next - 1])
    {
      hide Holds, Run, Clock, Buffered, InSlots, Copied;
      ghost var b, k := next - 1, chan.accesses;
      if !zeroCopy {
        chunk := bufRd[Offset(at, 0)..Offset(at, n)];
      } else {
        chunk := [];
        SeenOrdered(chan.w, k);
        for i := 0 to n
          invariant chan.Valid() && |chunk| == i && chan.accesses == k + i
          invariant chan.writerSwCount == old(chan.writerSwCount) && copies == old(copies)
          invariant ChunkOf(chunk, chan.w, chan.stream, b, k)
        {
          chan.Interleave();
          SeenMonotone(chan.w, k, k + 1 + i);
          HeldByte(chan.ring[..], chan.w, chan.stream, b, k, i);
          chunk := chunk + [bufRd[Offset(at, i)]];
        }
        SeenMonotone(chan.w, k, k + n);
        copies := copies[b := k];
      }
    }
  }

  // The first buffer on offer, and the rest when it is taken.
  lemma BufferedNext(buf: seq<byte>, w: World, stream: Stream, offset: nat, next: nat, available: nat,
          copies: map<nat, nat>)
    requires Buffered(buf, w, stream, offset, next, available, copies) && available > 0
    requires offset + available <= BUFFER_COUNT
    ensures next in copies ==> CopyAt(buf, Offset(offset, 0), w, stream, next, copies[next])
    ensures Buffered(buf, w, stream, Slot(offset + 1), next + 1, available - 1, copies)
    ensures available > 1 ==> Slot(offset + 1) == offset + 1
  {
    hide CopyAt;
    forall b: nat | next + 1 <= b < next + available && b in copies
      ensures CopyAt(buf, Offset(Slot(offset + 1) + b - (next + 1), 0), w, stream, b, copies[b])
    {
      assert CopyAt(buf, Offset(offset + b - next, 0), w, stream, b, copies[b]);
    }
  }

  lemma BufferedNone(buf: seq<byte>, w: World, stream: Stream, offset: nat, next: nat, copies: map<nat, nat>)
    ensures Buffered(buf, w, stream, offset, next, 0, copies)
  {
  }

  lemma FullReading(w: World, k: nat, sw: nat) returns (h: Haul)
    requires Seen(w, k).hw > sw
    ensures h == Reading(w, k, sw, BUFFER_COUNT, false, 0) && !Refused(w, k, sw, false, 0)
    ensures Booked(w, sw, h) && sw <= h.next <= sw + BUFFER_COUNT && Seen(w, k).hw <= Seen(w, h.at).hw
  {
    hide Seen, Booked, Turns, Reading, Refused;
    ReadingAll(w, k, sw);
    h := Reading(w, k, sw, BUFFER_COUNT, false, 0);
    ReadingBooks(w, k, sw, BUFFER_COUNT, false, 0);
    SeenMonotone(w, k, h.at);
  }

  // With a buffer there the call is not refused.
  lemma ReadingAll(w: World, k: nat, sw: nat)
    requires Seen(w, k).hw > sw
    ensures !Refused(w, k, sw, false, 0)
    ensures Reading(w, k, sw, BUFFER_COUNT, false, 0) == Turns(w, Haul(sw, k + 1, {}, map[]), BUFFER_COUNT)
  {
    hide Seen, Turns;
    RefusedOnlyIfEmpty(w, k, sw, 0);
  }

  lemma FetchedIs(w: World, f: Feed, h: Haul)
    requires Seen(w, f.at).hw > f.next + f.available
    requires h == Reading(w, f.at, f.next + f.available, BUFFER_COUNT, false, 0)
    ensures Fetched(w, f) ==
            Feed(h.at, f.next + f.available, h.next - (f.next + f.available), f.lost + h.lost, f.copies + h.copies)
  {
    hide Seen, Turns, Reading, Refused;
    ReadingAll(w, f.at, f.next + f.available);
  }

  /** What a process call brings. Nothing, if poll() finds fewer than three buffers; else
      over the mapped ring all that was complete, as the driver counts, at the snapshot,
      and otherwise what one read() of at least one and at most 256 buffers brings. */
  lemma PollBrings(w: World, f: Feed, zeroCopy: bool, otherReady: bool)
    requires f.next + f.available <= Seen(w, f.at).hw
    ensures var g, sw := Poll(w, f, zeroCopy, otherReady), f.next + f.available;
            if Seen(w, f.at + 2).hw < sw + 3 then
              g == if otherReady then Feed(f.at + 2, sw, 0, f.lost, f.copies)
                   else Feed(f.at + 2, f.next, f.available, f.lost, f.copies)
            else if zeroCopy then
              && g.at == f.at + 2 && g.next == sw && g.lost == f.lost && g.copies == f.copies
              && (Seen(w, f.at + 1).hw - sw < 0x1_0000_0000 ==> g.next + g.available == Seen(w, f.at + 1).hw)
            else
              var h := Reading(w, f.at + 2, sw, 256, false, 0);
              && g == Feed(h.at, sw, h.next - sw, f.lost + h.lost, f.copies + h.copies)
              && 0 < g.available <= 256 && (g.available < 256 ==> Seen(w, g.at).hw <= g.next + g.available)
  {
    hide Seen, Turns, Reading;
    SeenMonotone(w, f.at, f.at + 1);
    if Seen(w, f.at + 2).hw > f.next + f.available + 2 && !zeroCopy {
      ReadBrings(w, f.(at := f.at + 2));
    }
  }

  lemma ReadBrings(w: World, f: Feed)
    requires Seen(w, f.at).hw > f.next + f.available
    ensures var g, sw := Fetched(w, f), f.next + f.available;
            var h := Reading(w, f.at, sw, 256, false, 0);
            && g == Feed(h.at, sw, h.next - sw, f.lost + h.lost, f.copies + h.copies)
            && 0 < g.available <= 256 && (g.available < 256 ==> Seen(w, g.at).hw <= g.next + g.available)
  {
    hide Seen, Fetched, Reading, Refused, Booked;
    var sw := f.next + f.available;
    var h := FullReading(w, f.at, sw);
    FetchedIs(w, f, h);
    SeenMonotone(w, f.at, f.at + 1);
    ReadingEnds(w, f.at, sw, BUFFER_COUNT, false, 0);
    WaitsForOne(w, f.at, sw, BUFFER_COUNT, 0);
  }

  /* A client that only looks at the slots of a mapped ring */

  // What it has been handed, and what was left out before each of them.
  datatype Hands = Hands(feed: Feed, dropped: nat, gaps: seq<nat>)

  function HandOne(h: Hands): Hands
    requires h.feed.available > 0
  {
    Hands(h.feed.(next := h.feed.next + 1, available := h.feed.available - 1), h.dropped, h.gaps + [h.dropped])
  }

  function HandSome(h: Hands, take: nat): Hands
    decreases take
  {
    if take == 0 || h.feed.available == 0 then h else HandSome(HandOne(h), take - 1)
  }

  // A process call, and then up to `take` buffers are taken.
  function HandTurn(w: World, h: Hands, take: nat, otherReady: bool): Hands {
    var f := Poll(w, h.feed, true, otherReady);
    HandSome(Hands(f, h.dropped + (f.next - h.feed.next), h.gaps), take)
  }

  function HandRun(w: World, takes: nat -> nat, otherReady: nat -> bool, rounds: nat): Hands {
    if rounds == 0 then Hands(EMPTY, 0, [])
    else HandTurn(w, HandRun(w, takes, otherReady, rounds - 1), takes(rounds - 1), otherReady(rounds - 1))
  }

  ghost predicate Counted(h: Hands) {
    && h.feed.next == |h.gaps| + h.dropped
    && (forall k: nat | k < |h.gaps| :: h.gaps[k] <= h.dropped)
    && (forall j: nat, k: nat | j <= k < |h.gaps| :: h.gaps[j] <= h.gaps[k])
  }

  lemma {:induction false} SomeCounted(h: Hands, take: nat)
    requires Counted(h)
    ensures Counted(HandSome(h, take)) && HandSome(h, take).dropped == h.dropped
    ensures take >= h.feed.available ==> HandSome(h, take).feed.available == 0
    decreases take
  {
    if take > 0 && h.feed.available > 0 {
      SomeCounted(HandOne(h), take - 1);
    }
  }

  // It is handed what it takes, as far as there is something on offer.
  lemma {:induction false} SomeHanded(h: Hands, take: nat)
    ensures var r, n := HandSome(h, take), Min(take, h.feed.available);
            && r.feed == h.feed.(next := h.feed.next + n, available := h.feed.available - n)
            && r.dropped == h.dropped && r.gaps == h.gaps + seq(n, _ => h.dropped)
    decreases take
  {
    if take > 0 && h.feed.available > 0 {
      SomeHanded(HandOne(h), take - 1);
    }
  }

  // Every buffer the kernel's count has passed is handed out, dropped, or on offer.
  lemma {:induction false} RunCounted(w: World, takes: nat -> nat, otherReady: nat -> bool, rounds: nat)
    ensures Counted(HandRun(w, takes, otherReady, rounds))
  {
    hide Seen;
    if rounds > 0 {
      RunCounted(w, takes, otherReady, rounds - 1);
      var h := HandRun(w, takes, otherReady, rounds - 1);
      var f := Poll(w, h.feed, true, otherReady(rounds - 1));
      SomeCounted(Hands(f, h.dropped + (f.next - h.feed.next), h.gaps), takes(rounds - 1));
    }
  }

  // A client that takes all there is never misses one.
  lemma {:induction false} DrainedDropsNone(w: World, takes: nat -> nat, otherReady: nat -> bool, rounds: nat)
    requires forall i: nat :: takes(i) >= UINT_RANGE
    ensures var h := HandRun(w, takes, otherReady, rounds); h.dropped == 0 && h.feed.available == 0
  {
    hide Seen;
    if rounds > 0 {
      DrainedDropsNone(w, takes, otherReady, rounds - 1);
      RunCounted(w, takes, otherReady, rounds - 1);
      var h := HandRun(w, takes, otherReady, rounds - 1);
      var f := Poll(w, h.feed, true, otherReady(rounds - 1));
      assert takes(rounds - 1) >= UINT_RANGE > f.available;
      SomeCounted(Hands(f, h.dropped + (f.next - h.feed.next), h.gaps), takes(rounds - 1));
    }
  }

  /** Any number of rounds, with polls that time out and wakeups without data in between,
      taking whatever the client likes: the k-th slot handed out is k on from the first,
      plus what was left out before it, so it is in step iff that makes whole laps. A
      client that takes all there is is handed slots 0, 1, .. 255, 0, 1, .. of every
      buffer the kernel's count has moved past. */
  method HandOut(w: World, stream: Stream, rounds: nat, otherReady: nat -> bool, takes: nat -> nat)
    returns (slots: seq<nat>)
    ensures var h := HandRun(w, takes, otherReady, rounds);
            && InSlots(slots, h.gaps)
            && (forall k: nat | k < |slots| :: slots[k] == Slot(k) <==> h.gaps[k] % BUFFER_COUNT == 0)
            && ((forall i: nat :: takes(i) >= UINT_RANGE) ==> |slots| == h.feed.next && Continuous(slots))
  {
    hide Port.Valid, Seen, InSlots, Poll, HandSome, HandRun;
    var port := new Port(w, stream, true);
    slots := [];
    HandRunNext(w, takes, otherReady, 0);
    for i := 0 to rounds
      invariant port.Valid() && port.zeroCopy && port.chan.w == w && slots == port.handed
      invariant fresh(port) && fresh(port.chan) && fresh(port.chan.ring) && fresh(port.bufRd)
      invariant port.Given() == HandRun(w, takes, otherReady, i)
    {
      HandRunNext(w, takes, otherReady, i);
      var timedOut := port.Process(otherReady(i));
      var some := TakeSome(port, takes(i));
      slots := slots + some;
    }
    PortInSlots(port);
    HandsMean(w, takes, otherReady, rounds, slots);
  }

  lemma PortInSlots(port: Port)
    requires port.Valid() && port.zeroCopy
    ensures InSlots(port.handed, port.gaps)
  {
  }

  lemma HandsMean(w: World, takes: nat -> nat, otherReady: nat -> bool, rounds: nat, slots: seq<nat>)
    requires InSlots(slots, HandRun(w, takes, otherReady, rounds).gaps)
    ensures var h := HandRun(w, takes, otherReady, rounds);
            && (forall k: nat | k < |slots| :: slots[k] == Slot(k) <==> h.gaps[k] % BUFFER_COUNT == 0)
            && ((forall i: nat :: takes(i) >= UINT_RANGE) ==> |slots| == h.feed.next && Continuous(slots))
  {
    hide HandRun, Continuous;
    ghost var h := HandRun(w, takes, otherReady, rounds);
    forall k: nat | k < |slots|
      ensures slots[k] == Slot(k) <==> h.gaps[k] % BUFFER_COUNT == 0
    {
      GapShows(k, h.gaps[k]);
    }
    RunCounted(w, takes, otherReady, rounds);
    if forall i: nat :: takes(i) >= UINT_RANGE {
      DrainedDropsNone(w, takes, otherReady, rounds);
      NoGaps(slots, h.gaps);
    }
  }

  lemma HandRunNext(w: World, takes: nat -> nat, otherReady: nat -> bool, rounds: nat)
    ensures HandRun(w, takes, otherReady, 0) == Hands(EMPTY, 0, [])
    ensures HandRun(w, takes, otherReady, rounds + 1) ==
            HandTurn(w, HandRun(w, takes, otherReady, rounds), takes(rounds), otherReady(rounds))
  {
    hide Poll, HandTurn;
  }

  method TakeSome(port: Port, take: nat) returns (slots: seq<nat>)
    requires port.Valid()
    modifies port
    ensures port.Valid() && port.handed == old(port.handed) + slots
    ensures port.Given() == HandSome(old(port.Given()), take)
  {
    hide RxChannel.Valid, Seen, Buffered, InSlots;
    slots := [];
    for taken := 0 to take
      invariant port.Valid() && port.handed == old(port.handed) + slots
      invariant HandSome(port.Given(), take - taken) == HandSome(old(port.Given()), take)
    {
      var bufRd := port.NextReadBuffer();
      if bufRd.None? {
        return;
      }
      slots := slots + [bufRd.value];
    }
  }
}
