/** The transmit half of the user library's DMA control block over the mapped ring:
    the kernel's count is moved ahead first, the client fills the buffers after. */
module TxPort {
  import opened Config
  import opened Engine
  import opened TxRing

  /** The window granted when the snapshot shows `hw` and the kernel stood at `sw`:
      buffers sw up to hw + 128. It is at most half the ring unless the FPGA has
      overtaken, never touches a slot still to be sent, and names no slot twice iff
      the FPGA is at most half a ring past the kernel's count. */
  lemma WindowSlots(hw: nat, sw: nat)
    requires sw <= hw + MARGIN
    ensures hw <= sw ==> hw + MARGIN - sw <= MARGIN
    ensures forall i: nat, j: nat | hw <= i < sw <= j < hw + MARGIN :: Slot(i) != Slot(j)
    ensures (forall i: nat, j: nat | sw <= i < j < hw + MARGIN :: Slot(i) != Slot(j)) <==> hw <= sw + MARGIN
  {
    forall i: nat, j: nat | i < j < i + BUFFER_COUNT
      ensures Slot(i) != Slot(j)
    {
      SlotsApart(i, j);
    }
    if hw > sw + MARGIN {
      assert Slot(sw + BUFFER_COUNT) == Slot(sw);
    }
  }

  /** The transmit side between two calls of the client: accesses made, the buffer to hand
      out next, how many are granted, and for each filled one the access after which the
      client began. The kernel's count stands at next + available. */
  datatype Window = Window(at: nat, next: nat, available: nat, starts: map<nat, nat>)

  const EMPTY: Window := Window(0, 0, 0, map[])

  /** The transmit half of litepcie_dma_process: what was granted is replaced by the window
      up to half a ring ahead of the snapshot, unless there is no room. */
  function Poll(w: World, g: Window, otherReady: bool): Window {
    var sw, polled := g.next + g.available, g.(at := g.at + 2);
    if sw >= Seen(w, g.at + 2).hw + MARGIN then
      if otherReady then polled.(next := sw, available := 0) else polled
    else polled.(next := sw, available := (MARGIN - (sw - Seen(w, g.at + 1).hw)) % UINT_RANGE)
  }

  /** What a process call grants. Nothing, if poll() finds half a ring or more filled; else
      all up to half a ring ahead of the driver's count at the snapshot. */
  lemma PollGrants(w: World, g: Window, otherReady: bool)
    requires g.next + g.available <= Seen(w, g.at).hw + 128
    ensures var r, sw := Poll(w, g, otherReady), g.next + g.available;
            if sw - Seen(w, g.at + 2).hw >= 128 then
              r == if otherReady then Window(g.at + 2, sw, 0, g.starts)
                   else Window(g.at + 2, g.next, g.available, g.starts)
            else
              && r.at == g.at + 2 && r.next == sw && r.starts == g.starts
              && var top := Seen(w, g.at + 1).hw + 128;
                 top - sw < 0x1_0000_0000 ==> r.next + r.available == top
  {
    hide Seen;
    SeenMonotone(w, g.at, g.at + 1);
  }

  // The client fills the last buffer handed out with n bytes.
  function Loaded(g: Window, n: nat): Window
    requires g.next > 0
  {
    g.(at := g.at + n, starts := g.starts[g.next - 1 := g.at])
  }

  // When the buffers were begun.
  function Starts(fills: Fills): map<nat, nat> { map b | b in fills :: fills[b].start }

  lemma StartsNext(fills: Fills, b: nat, f: Fill)
    ensures Starts(fills[b := f]) == Starts(fills)[b := f.start]
  {
  }

  class Port {
    const chan: TxChannel

    var readerHwCount: nat
    var readerSwCount: nat
    var available: nat         // buffers_available_write
    var offset: nat            // usr_write_buf_offset

    ghost var next: nat        // stream number of the buffer to hand out next
    ghost var filling: bool    // the client has a buffer it has not filled
    ghost var handed: seq<nat>
    ghost var dropped: nat

    ghost predicate Valid()
      reads this, chan, chan.ring
    {
      && chan.Valid()
      && chan.readerSwCount == next + available <= chan.readerHwCount + MARGIN
      && offset < BUFFER_COUNT && (available > 0 ==> offset == Slot(next))
      && next == chan.frontier + (if filling then 1 else 0) && next == |handed| + dropped
      && (dropped == 0 ==> Continuous(handed))
    }

    ghost function State(): Window
      reads this, chan
    {
      Window(chan.accesses, next, available, Starts(chan.fills))
    }

    constructor (w: World)
      ensures Valid() && fresh(chan) && fresh(chan.ring) && chan.w == w
      ensures State() == EMPTY && !filling && dropped == 0
      ensures chan.sent == [] && chan.fills == map[]
    {
      chan := new TxChannel(w);
      readerHwCount, readerSwCount, available, offset := 0, 0, 0, 0;
      next, filling, handed, dropped := 0, false, [], 0;
    }

    /** The transmit half of litepcie_dma_process. */
    method Process(otherReady: bool) returns (timedOut: bool)
      requires Valid() && !filling
      modifies this, chan
      ensures Valid() && !filling && handed == old(handed)
      ensures State() == Poll(chan.w, old(State()), otherReady)
      ensures timedOut <==> !otherReady && old(next + available) >= Seen(chan.w, old(chan.accesses) + 2).hw + MARGIN
      ensures dropped == old(dropped) + (if timedOut then 0 else old(available))
      ensures chan.fills == old(chan.fills)
      // With room, the kernel's count ends half a ring ahead of the snapshot.
      ensures !timedOut && (available > 0 || !otherReady) && readerHwCount + MARGIN - next < UINT_RANGE ==>
                chan.readerSwCount == readerHwCount + MARGIN
    {
      hide Valid, Seen, Starts;
      var ready := Look();
      timedOut := !ready && !otherReady;
      if !timedOut {
        DropRest();
        if ready {
          Grant();
        }
      }
    }

    // A snapshot of the driver's counts, and poll().
    method Look() returns (ready: bool)
      requires Valid() && !filling
      modifies this`readerHwCount, this`readerSwCount, chan
      ensures Valid() && State() == old(State()).(at := old(chan.accesses) + 2) && chan.fills == old(chan.fills)
      ensures ready <==> next + available < Seen(chan.w, old(chan.accesses) + 2).hw + MARGIN
      ensures readerHwCount == Seen(chan.w, old(chan.accesses) + 1).hw
      ensures Snapshot()
    {
      hide TxChannel.Valid, Continuous, Slot, Seen, Starts;
      readerHwCount, readerSwCount := chan.Counts();
      ready := chan.PollOut();
    }

    // The counts are the kernel's, or were a little while ago.
    ghost predicate Snapshot()
      reads this, chan
    {
      && readerSwCount == chan.readerSwCount == next + available <= readerHwCount + MARGIN
      && readerHwCount <= chan.readerHwCount
    }

    // Whatever the client left from the last time is given up.
    method DropRest()
      requires Valid() && !filling && Snapshot()
      modifies this`available, this`next, this`dropped, chan`frontier
      ensures Valid() && Snapshot() && dropped == old(dropped) + old(available)
      ensures State() == old(State()).(next := old(next) + old(available), available := 0)
    {
      hide TxChannel.Valid, Continuous, Starts;
      chan.Skip(available);
      next, dropped, available := chan.readerSwCount, dropped + available, 0;
    }

    // Move the kernel's count half a ring ahead of the snapshot.
    method Grant()
      requires Valid() && !filling && available == 0 && Snapshot()
      modifies this`available, this`offset, chan`readerSwCount
      ensures Valid()
      ensures State() == old(State()).(available := (MARGIN - (next - readerHwCount)) % UINT_RANGE)
      ensures readerHwCount + MARGIN - next < UINT_RANGE ==> chan.readerSwCount == readerHwCount + MARGIN
    {
      hide TxChannel.Valid, Continuous, Slot, Starts;
      available := (MARGIN - (readerSwCount - readerHwCount)) % UINT_RANGE;
      offset := Slot(readerSwCount);
      chan.Update(readerSwCount + available);
    }

    /** litepcie_dma_next_write_buffer. */
    method NextWriteBuffer() returns (r: Option<nat>)
      requires Valid() && !filling
      modifies this`available, this`offset, this`next, this`handed, this`filling
      ensures Valid() && filling == r.Some?
      ensures r.None? <==> old(available) == 0
      ensures r.None? ==> State() == old(State()) && handed == old(handed)
      ensures r.Some? ==> && r.value == Slot(old(next)) && handed == old(handed) + [r.value]
                          && State() == old(State()).(next := old(next) + 1, available := old(available) - 1)
    {
      hide TxChannel.Valid, Starts;
      if available == 0 {
        return None;
      }
      available := available - 1;
      r := Some(offset);
      offset := Slot(offset + 1);
      next, handed, filling := next + 1, handed + [r.value], true;
    }

    /** The client fills the buffer it was handed with up to a buffer's worth of data;
        what it leaves out keeps whatever the slot held. */
    method Store(slot: nat, data: seq<byte>)
      requires Valid() && filling && slot == Slot(next - 1) && |data| <= BUFFER_SIZE
      modifies this`filling, chan, chan.ring
      ensures Valid() && !filling
      ensures State() == Loaded(old(State()), |data|) && chan.accesses == old(chan.accesses) + |data|
      ensures chan.fills == old(chan.fills)[next - 1 := Fill(old(chan.accesses), data)]
    {
      hide Wired, Run, Clock, Quiet, Continuous, Slot;
      StartsNext(chan.fills, next - 1, Fill(chan.accesses, data));
      chan.FillNext(slot, data);
      filling := false;
    }
  }
}
