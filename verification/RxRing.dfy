/** The receive direction ("DMA writer"): the FPGA fills the ring, the driver
    hands it to user space. Between any two accesses of the driver to shared
    state an arbitrary number of engine and interrupt events takes place. */
module RxRing {
  import opened Config
  import opened Counter
  import opened Bits
  import opened Descriptors
  import opened Engine
  import opened Memory
  import opened RxSchedule

  // The copy of buffer b that began after access k stands at data[at..].
  ghost predicate CopyAt(data: seq<byte>, at: nat, w: World, stream: Stream, b: nat, k: nat) {
    && at + BUFFER_SIZE <= |data|
    && forall j: nat | j < BUFFER_SIZE :: data[at + j] == Copied(w, stream, b, k, j)
  }

  /** What a reader's memory looks like once the stream buffers from `first` up to
      `next` were dealt with, in order: every copied buffer stands at its place, the
      place of every lost one is as it was before, and so is the rest. */
  ghost predicate Delivered(before: seq<byte>, after: seq<byte>, w: World, stream: Stream,
                            first: nat, next: nat, copies: map<nat, nat>) {
    && |after| == |before| && first <= next && Offset(next - first, 0) <= |after|
    && (forall b: nat | first <= b < next :: DeliveredOne(before, after, w, stream, first, b, copies))
    && (forall k: nat | Offset(next - first, 0) <= k < |after| :: after[k] == before[k])
  }

  ghost predicate DeliveredOne(before: seq<byte>, after: seq<byte>, w: World, stream: Stream,
                               first: nat, b: nat, copies: map<nat, nat>)
    requires first <= b
  {
    if b in copies then CopyAt(after, Offset(b - first, 0), w, stream, b, copies[b])
    else SameInside(before, after, Offset(b - first, 0))
  }

  lemma DeliverNone(before: seq<byte>, w: World, stream: Stream, first: nat)
    ensures Delivered(before, before, w, stream, first, first, map[])
  {
  }

  // One turn of the loop with a buffer available.
  lemma DeliverNext(before: seq<byte>, mid: seq<byte>, after: seq<byte>, w: World, stream: Stream,
                    first: nat, h: Haul, isLost: bool)
    requires Delivered(before, mid, w, stream, first, h.next, h.copies) && Offset(h.next + 1 - first, 0) <= |after|
    requires Booked(w, first, h) && Seen(w, h.at + 1).hw > h.next
    requires isLost <==> Seen(w, h.at + 2).hw - h.next > MARGIN
    requires isLost ==> after == mid
    requires !isLost ==> && SameOutside(after, mid, Offset(h.next - first, 0))
                         && CopyAt(after, Offset(h.next - first, 0), w, stream, h.next, h.at + 2)
    ensures var t := Turn(w, h);
            && Booked(w, first, t) && |t.lost| == |h.lost| + (if isLost then 1 else 0)
            && t.next == h.next + 1 && t.at == h.at + (if isLost then 2 else 2 + BUFFER_SIZE)
            && Delivered(before, after, w, stream, first, t.next, t.copies)
  {
    hide Delivered, CopyAt, SameOutside, Seen;
    TurnBooks(w, first, h);
    assert forall b | b in h.copies :: b < h.next;
    if isLost {
      DeliverLost(before, after, w, stream, first, h, Turn(w, h));
    } else {
      DeliverCopy(before, mid, after, w, stream, first, h, Turn(w, h));
    }
  }

  lemma DeliverLost(before: seq<byte>, after: seq<byte>, w: World, stream: Stream, first: nat, h: Haul, t: Haul)
    requires Delivered(before, after, w, stream, first, h.next, h.copies) && t.next == h.next + 1
    requires Offset(h.next + 1 - first, 0) <= |after| && t.copies == h.copies && t.next - 1 !in h.copies
    ensures Delivered(before, after, w, stream, first, t.next, t.copies)
  {
    hide CopyAt;
    forall b: nat | first <= b < t.next
      ensures DeliveredOne(before, after, w, stream, first, b, t.copies)
    {
      if b < h.next {
        assert DeliveredOne(before, after, w, stream, first, b, h.copies);
      }
    }
  }

  lemma DeliverCopy(before: seq<byte>, mid: seq<byte>, after: seq<byte>, w: World, stream: Stream,
                    first: nat, h: Haul, t: Haul)
    requires Delivered(before, mid, w, stream, first, h.next, h.copies) && SameOutside(after, mid,
      Offset(h.next - first, 0))
    requires t.next == h.next + 1 && t.copies == h.copies[h.next := h.at + 2]
    requires CopyAt(after, Offset(h.next - first, 0), w, stream, h.next, h.at + 2)
    ensures Delivered(before, after, w, stream, first, t.next, t.copies)
  {
    hide Copied;
    forall b: nat | first <= b < t.next
      ensures DeliveredOne(before, after, w, stream, first, b, t.copies)
    {
      if b < h.next {
        assert DeliveredOne(before, mid, w, stream, first, b, h.copies);
      }
    }
  }

  // A copy that was not overtaken is the stream's buffer.
  lemma CopyIsBlock(data: seq<byte>, at: nat, w: World, stream: Stream, b: nat, k: nat)
    requires CopyAt(data, at, w, stream, b, k) && b < Seen(w, k).done && !Overtaken(w, b, k, BUFFER_SIZE)
    ensures BlockAt(data, at, stream, b)
  {
    hide Copied, Seen, Overtaken;
    CopyRightIff(w, b, k, BUFFER_SIZE);
  }

  // The copies that the engine did not overtake are the stream's buffers.
  ghost predicate Intact(data: seq<byte>, w: World, stream: Stream, first: nat, copies: map<nat, nat>) {
    forall b: nat | first <= b && b in copies && !Overtaken(w, b, copies[b], BUFFER_SIZE) ::
      BlockAt(data, Offset(b - first, 0), stream, b)
  }

  lemma DeliveredIntact(before: seq<byte>, after: seq<byte>, w: World, stream: Stream, first: nat, h: Haul)
    requires Delivered(before, after, w, stream, first, h.next, h.copies) && Booked(w, first, h)
    ensures Intact(after, w, stream, first, h.copies)
  {
    hide CopyAt, BlockAt, Seen, Overtaken;
    forall b: nat | first <= b && b in h.copies && !Overtaken(w, b, h.copies[b], BUFFER_SIZE)
      ensures BlockAt(after, Offset(b - first, 0), stream, b)
    {
      assert DeliveredOne(before, after, w, stream, first, b, h.copies);
      SeenOrdered(w, h.copies[b]);
      CopyIsBlock(after, Offset(b - first, 0), w, stream, b, h.copies[b]);
    }
  }

  // What stands in the ring is what a copy yields.
  lemma HeldByte(mem: seq<byte>, w: World, stream: Stream, b: nat, k: nat, j: nat)
    requires Holds(mem, stream, Moved(Seen(w, k + 1 + j))) && j < BUFFER_SIZE && b < Seen(w, k + 1 + j).done
    ensures mem[Address(b, j)] == Copied(w, stream, b, k, j)
  {
    hide Seen;
    OccupantHeld(Moved(Seen(w, k + 1 + j)), b, j);
  }

  class RxChannel {
    const w: World
    const stream: Stream      // what the FPGA receives, without end
    const ring: array<byte>   // writer_addr[0..256]

    var done: nat
    var pos: nat
    var raised: nat
    var accesses: nat         // made by the driver so far
    var now: nat

    var writerHwCount: nat
    var writerHwCountLast: nat
    var writerSwCount: nat

    function State(): Dma
      reads this
    {
      Dma(done, pos, writerHwCount, writerHwCountLast, raised)
    }

    ghost predicate Consistent()
      reads this, ring
    {
      && ring.Length == RING_BYTES
      && State() == Run(w.events, now)
      && writerHwCount == writerHwCountLast <= done && pos <= BUFFER_SIZE
      && Holds(ring[..], stream, Moved(State()))
    }

    // Between two accesses; so the state is Seen(w, accesses).
    ghost predicate Valid()
      reads this, ring
    {
      Consistent() && now == Clock(w, accesses)
    }

    // litepcie_dma_writer_start: the counters are cleared and the engine enabled.
    constructor (w: World, stream: Stream)
      ensures Valid() && fresh(ring)
      ensures accesses == 0 && writerSwCount == 0 && writerHwCount == 0
      ensures this.w == w && this.stream == stream
    {
      this.w, this.stream := w, stream;
      ring := new byte[RING_BYTES](_ => 0);
      done, pos, raised, accesses, now := 0, 0, 0, 0, 0;
      writerHwCount, writerHwCountLast, writerSwCount := 0, 0, 0;
    }

    // The DMA writer part of litepcie_interrupt.
    method Interrupt()
      modifies this`writerHwCount, this`writerHwCountLast
      ensures writerHwCountLast == writerHwCount
      ensures writerHwCount == Reconstruct(old(writerHwCount), old(writerHwCountLast), LoopStatus(done))
    {
      var loopStatus := LoopStatus(done);
      writerHwCount := And(writerHwCount, COUNT_MASK);
      writerHwCount := Or(writerHwCount, loopStatus / 0x1_0000 * BUFFER_COUNT + And(loopStatus, 0xffff));
      if writerHwCountLast > writerHwCount {
        writerHwCount := writerHwCount + PERIOD;
      }
      writerHwCountLast := writerHwCount;
    }

    // One step of the engine: store a byte, or complete the buffer.
    method Transfer()
      requires Consistent() && w.events(now) == Work
      modifies this`pos, this`done, this`raised, this`now, ring
      ensures Consistent() && now == old(now) + 1
    {
      hide Reconstruct, Holds;
      if pos < BUFFER_SIZE {
        StoreKeepsHolds(ring[..], stream, done, pos);
        ring[Address(done, pos)] := stream(Offset(done, pos));
        assert ring[..] == old(ring[..])[Address(done, pos) := stream(Offset(done, pos))];
        pos := pos + 1;
      } else {
        if raised == 0 && Interrupting(done) {
          raised := done + 1;
        }
        done, pos := done + 1, 0;
      }
      now := now + 1;
    }

    // One invocation of the handler; it answers all interrupts raised so far.
    method Handle()
      requires Consistent() && w.events(now) == Irq
      modifies this`raised, this`now, this`writerHwCount, this`writerHwCountLast
      ensures Consistent() && now == old(now) + 1
    {
      hide Reconstruct, Holds;
      Interrupt();
      RunIrq(w.events, now, old(State()), writerHwCount);
      raised, now := 0, now + 1;
      assert State() == Run(w.events, now);
      assert ring[..] == old(ring[..]);
    }

    // The driver's next access to shared state: first the rest of the world runs.
    method Interleave()
      requires Valid()
      modifies this`done, this`pos, this`raised, this`accesses, this`now
      modifies this`writerHwCount, this`writerHwCountLast, ring
      ensures Valid() && accesses == old(accesses) + 1 && State() == Seen(w, accesses)
    {
      hide Holds, Run;
      ClockNext(w, accesses);
      for k := 0 to w.delay(accesses)
        invariant Consistent() && now == old(now) + k && accesses == old(accesses)
      {
        if w.events(now) == Work {
          Transfer();
        } else {
          Handle();
        }
      }
      accesses := accesses + 1;
    }

    // copy_to_user of one buffer, byte by byte.
    method CopyToUser(data: array<byte>, at: nat, b: nat)
      requires Valid() && data != ring && at + BUFFER_SIZE <= data.Length && b < done
      modifies this`done, this`pos, this`raised, this`accesses, this`now
      modifies this`writerHwCount, this`writerHwCountLast, ring, data
      ensures Valid() && accesses == old(accesses) + BUFFER_SIZE
      ensures SameOutside(data[..], old(data[..]), at)
      ensures CopyAt(data[..], at, w, stream, b, old(accesses))
    {
      hide Holds, Copied, Run, Clock, Address;
      for i := 0 to BUFFER_SIZE
        invariant Valid() && accesses == old(accesses) + i
        invariant SameOutside(data[..], old(data[..]), at)
        invariant forall j: nat | j < i :: data[at + j] == Copied(w, stream, b, old(accesses), j)
      {
        Interleave();
        SeenMonotone(w, old(accesses), accesses);
        HeldByte(ring[..], w, stream, b, old(accesses), i);
        data[at + i] := ring[Address(b, i)];
      }
    }

    // wait_event_interruptible: look again until there is something to read or,
    // after `patience` looks, a signal arrives.
    method WaitReadable(patience: nat) returns (ret: int)
      requires Valid()
      modifies this`done, this`pos, this`raised, this`accesses, this`now
      modifies this`writerHwCount, this`writerHwCountLast, ring
      ensures Valid() && accesses == WaitEnd(w, old(accesses), writerSwCount, patience)
      ensures ret == if Refused(w, old(accesses), writerSwCount, false, patience) then -ERESTARTSYS else 0
    {
      hide Valid, Seen;
      for looks := 0 to patience
        invariant Valid()
        invariant WaitEnd(w, old(accesses), writerSwCount, patience) ==
                  WaitEnd(w, accesses, writerSwCount, patience - looks)
      {
        Interleave();
        if writerHwCount - writerSwCount > 0 {
          return 0;
        }
      }
      Interleave();
      ret := if writerHwCount - writerSwCount > 0 then 0 else -ERESTARTSYS;
    }

    // How far the loop of litepcie_read is, if it has given up and copied so much.
    ghost function Progress(lost: set<nat>, copies: map<nat, nat>): Haul
      reads this
    {
      Haul(writerSwCount, accesses, lost, copies)
    }

    // One turn of the loop of litepcie_read, for the buffer at writerSwCount.
    method ReadOne(data: array<byte>, at: nat) returns (more: bool, isLost: bool)
      requires Valid() && data != ring && at + BUFFER_SIZE <= data.Length
      modifies this`done, this`pos, this`raised, this`accesses, this`now
      modifies this`writerHwCount, this`writerHwCountLast, ring, data
      ensures Valid()
      ensures more <==> Seen(w, old(accesses) + 1).hw > writerSwCount
      ensures isLost <==> more && Seen(w, old(accesses) + 2).hw - writerSwCount > MARGIN
      ensures accesses == old(accesses) + (if !more then 1 else if isLost then 2 else 2 + BUFFER_SIZE)
      ensures !more || isLost ==> data[..] == old(data[..])
      ensures more && !isLost ==> SameOutside(data[..], old(data[..]), at)
                                  && CopyAt(data[..], at, w, stream, writerSwCount, old(accesses) + 2)
    {
      hide Valid, SameOutside, CopyAt, Seen;
      more, isLost := true, false;
      Interleave();
      if writerHwCount - writerSwCount > 0 {
        SeenMonotone(w, accesses, accesses + 1);
        Interleave();
        if writerHwCount - writerSwCount > MARGIN {
          isLost := true;
        } else {
          SeenOrdered(w, accesses);
          CopyToUser(data, at, writerSwCount);
        }
      } else {
        more := false;
      }
    }

    // The loop of litepcie_read.
    method ReadLoop(data: array<byte>, size: nat) returns (ret: nat, overflows: nat, ghost h: Haul)
      requires Valid() && data != ring && size <= data.Length
      modifies this, ring, data
      ensures Valid()
      ensures h == Turns(w, old(Progress({}, map[])), size / BUFFER_SIZE)
      ensures h.next == writerSwCount && h.at == accesses && overflows == |h.lost|
      ensures ret == BUFFER_SIZE * (h.next - old(writerSwCount)) <= size
      ensures Delivered(old(data[..]), data[..], w, stream, old(writerSwCount), h.next, h.copies)
    {
      hide Holds, Run, Clock, Seen, Turn, Turns, Delivered, SameOutside, CopyAt, Booked;
      overflows, h := 0, Progress({}, map[]);
      BookNone(w, writerSwCount, accesses);
      ghost var before, first, n := data[..], writerSwCount, size / BUFFER_SIZE;
      DeliverNone(before, w, stream, first);
      var i, len := 0, size;
      while len >= BUFFER_SIZE
        invariant Valid() && h.next == writerSwCount && h.at == accesses
        invariant 0 <= i <= n && writerSwCount == first + i && 0 <= len == size - BUFFER_SIZE * i
        invariant Turns(w, h, n - i) == Turns(w, old(Progress({}, map[])), n)
        invariant overflows == |h.lost| && Booked(w, first, h)
        invariant Delivered(before, data[..], w, stream, first, h.next, h.copies)
        decreases len
      {
        ghost var mid := data[..];
        TurnsNext(w, h, n - i);
        var more, isLost := ReadOne(data, BUFFER_SIZE * i);
        if !more {
          h := h.(at := accesses);
          break;
        }
        DeliverNext(before, mid, data[..], w, stream, first, h, isLost);
        h := Turn(w, h);
        if isLost {
          overflows := overflows + 1;
        }
        len := len - BUFFER_SIZE;
        writerSwCount := writerSwCount + 1;
        i := i + 1;
      }
      TurnsNext(w, h, 0);
      ret := size - len;
    }

    /** litepcie_read. In every world it does what Reading says, and user memory ends up
        with exactly what the copies yield; its counts and bytes account for each other. */
    method Read(data: array<byte>, size: nat, nonblock: bool, patience: nat) returns (ret: int, overflows: nat)
      requires Valid() && data != ring && size <= data.Length
      modifies this, ring, data
      ensures Valid()
      ensures var k, b := old(accesses), old(writerSwCount);
              var h := Reading(w, k, b, size / BUFFER_SIZE, nonblock, patience);
              && writerSwCount == h.next && accesses == h.at && overflows == |h.lost|
              && ret == (if !Refused(w, k, b, nonblock, patience) then BUFFER_SIZE * (h.next - b)
                         else if nonblock then -EAGAIN else -ERESTARTSYS)
              && ret <= size
              && Delivered(old(data[..]), data[..], w, stream, b, h.next, h.copies)
              && Intact(data[..], w, stream, b, h.copies)
      ensures ret == -11 <==> nonblock && Seen(w, old(accesses) + 1).hw == old(writerSwCount)
      ensures ret == -512 <==> !nonblock && forall j: nat | old(accesses) < j <= old(accesses) + 1 + patience ::
                                         Seen(w, j).hw <= old(writerSwCount)
      ensures ret != -11 && ret != -512 ==> ret == 8192 * (writerSwCount - old(writerSwCount))
      ensures !nonblock && size >= 8192 ==> ret == -512 || ret >= 8192
    {
      hide Valid, Delivered, Intact, Booked, Seen, Turns, WaitEnd, Refused;
      overflows := 0;
      ghost var k, b := accesses, writerSwCount;
      DeliverNone(data[..], w, stream, b);
      if nonblock {
        Interleave();
        ret := if writerHwCount == writerSwCount then -EAGAIN else 0;
      } else {
        ret := WaitReadable(patience);
      }
      ghost var h := Haul(b, accesses, {}, map[]);
      if ret == 0 {
        ret, overflows, h := ReadLoop(data, size);
      }
      RefusedIff(w, k, b, nonblock, patience);
      if !nonblock && size >= 8192 && ret != -512 {
        WaitsForOne(w, k, b, size / BUFFER_SIZE, patience);
      }
      ReadingBooks(w, k, b, size / BUFFER_SIZE, nonblock, patience);
      DeliveredIntact(old(data[..]), data[..], w, stream, b, h);
    }

    // The DMA_WRITER ioctl on an enabled writer: a snapshot of both counts.
    method Counts() returns (hw: nat, sw: nat)
      requires Valid()
      modifies this`done, this`pos, this`raised, this`accesses, this`now
      modifies this`writerHwCount, this`writerHwCountLast, ring
      ensures Valid() && accesses == old(accesses) + 1
      ensures hw == writerHwCount == Seen(w, accesses).hw && sw == writerSwCount
    {
      Interleave();
      hw, sw := writerHwCount, writerSwCount;
    }

    // The MMAP_DMA_WRITER_UPDATE ioctl.
    method Update(sw: nat)
      requires Valid()
      modifies this`writerSwCount
      ensures Valid() && writerSwCount == sw
    {
      writerSwCount := sw;
    }

    // The POLLIN part of litepcie_poll.
    method PollIn() returns (ready: bool)
      requires Valid()
      modifies this`done, this`pos, this`raised, this`accesses, this`now
      modifies this`writerHwCount, this`writerHwCountLast, ring
      ensures Valid() && accesses == old(accesses) + 1
      ensures ready <==> Seen(w, accesses).hw > writerSwCount + 2
    {
      Interleave();
      ready := writerHwCount - writerSwCount > 2;
    }
  }
}
