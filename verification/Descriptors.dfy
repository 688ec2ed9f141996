/** The scatter-gather table that starts a DMA direction, and the interrupt
    cadence its endless replay produces. */
module Descriptors {
  import opened Config

  const DMA_IRQ_DISABLE: bv32 := 0x100_0000
  const DMA_LAST_DISABLE: bv32 := 0x200_0000
  const LENGTH_MASK: bv32 := 0xff_ffff

  datatype Descriptor = Descriptor(control: bv32, address: bv64) {
    // Fields of the table value register.
    predicate RaisesIrq() { control & DMA_IRQ_DISABLE == 0 }
    function Length(): bv32 { control & LENGTH_MASK }
  }

  // Size and flags written for table entry i.
  function Control(i: nat): bv32 {
    DMA_LAST_DISABLE | (if i % BUFFER_PER_IRQ == 0 then 0 else DMA_IRQ_DISABLE) | 8192
  }

  // The engine works through the table again and again: does buffer b interrupt?
  predicate Interrupting(b: nat) {
    Descriptor(Control(Slot(b)), 0).RaisesIrq()
  }

  lemma InterruptingEvery32(b: nat)
    ensures Interrupting(b) <==> b % 32 == 0
  {
    assert Slot(b) % BUFFER_PER_IRQ == b % BUFFER_PER_IRQ;
    assert (DMA_LAST_DISABLE | 0 | 8192) & DMA_IRQ_DISABLE == 0;
    assert (DMA_LAST_DISABLE | DMA_IRQ_DISABLE | 8192) & DMA_IRQ_DISABLE != 0;
  }

  // The first interrupting buffer from n on.
  function NextIrq(n: nat): nat { (n + BUFFER_PER_IRQ - 1) / BUFFER_PER_IRQ * BUFFER_PER_IRQ }

  // Any 32 consecutive buffers hold exactly one interrupting one.
  lemma OneIrqPerStride(n: nat)
    ensures n <= NextIrq(n) < n + BUFFER_PER_IRQ
    ensures forall b | n <= b < n + BUFFER_PER_IRQ :: Interrupting(b) <==> b == NextIrq(n)
  {
    forall b | n <= b < n + BUFFER_PER_IRQ
      ensures Interrupting(b) <==> b == NextIrq(n)
    {
      InterruptingEvery32(b);
    }
  }

  function Join(msb: bv32, lsb: bv32): bv64 { ((msb as bv64) << 32) | (lsb as bv64) }

  /** Registers and table of one DMA direction. */
  class Table {
    var value: bv32
    var addressLsb: bv32
    var loop: bool
    var enable: bool
    var entries: seq<Descriptor>

    method WriteEnable(on: bool)
      modifies this`enable
      ensures enable == on
    {
      enable := on;
    }

    method Flush()
      modifies this`entries
      ensures entries == []
    {
      entries := [];
    }

    // Writing the address MSB pushes the prepared descriptor.
    method WriteMsb(msb: bv32)
      modifies this`entries
      ensures entries == old(entries) + [Descriptor(value, Join(msb, addressLsb))]
    {
      entries := entries + [Descriptor(value, Join(msb, addressLsb))];
    }

    // litepcie_dma_writer_start and litepcie_dma_reader_start, up to the counters.
    method Start(handles: seq<bv64>)
      requires |handles| == BUFFER_COUNT
      modifies this
      ensures enable && loop
      ensures |entries| == BUFFER_COUNT
      ensures forall i | 0 <= i < BUFFER_COUNT :: entries[i].address == handles[i]
      ensures forall i | 0 <= i < BUFFER_COUNT :: entries[i].Length() == 8192
      // No descriptor ends a transfer, and one in 32 interrupts.
      ensures forall i | 0 <= i < BUFFER_COUNT ::
                entries[i].control == if i % 32 == 0 then 0x200_2000 else 0x300_2000
      ensures forall b: nat :: entries[Slot(b)].RaisesIrq() <==> Interrupting(b)
    {
      WriteEnable(false);
      Flush();
      loop := false;
      for i := 0 to BUFFER_COUNT
        invariant |entries| == i && !loop
        invariant forall k | 0 <= k < i :: entries[k] == Descriptor(Control(k), handles[k])
      {
        value := Control(i);
        addressLsb := (handles[i] & 0xffff_ffff) as bv32;
        SplitAndJoin(handles[i]);
        WriteMsb((handles[i] >> 32) as bv32);
      }
      loop := true;
      forall i | 0 <= i < BUFFER_COUNT
        ensures entries[i].Length() == 8192
        ensures entries[i].control == if i % 32 == 0 then 0x200_2000 else 0x300_2000
      {
        ControlLength(i);
      }
      WriteEnable(true);
    }
  }

  lemma ControlLength(i: nat)
    ensures Control(i) == if i % 32 == 0 then 0x200_2000 else 0x300_2000
    ensures Control(i) & LENGTH_MASK == 8192
  {
    assert DMA_LAST_DISABLE | 0 | 8192 == 0x200_2000;
    assert DMA_LAST_DISABLE | DMA_IRQ_DISABLE | 8192 == 0x300_2000;
    assert (DMA_LAST_DISABLE | 0 | 8192) & LENGTH_MASK == 8192;
    assert (DMA_LAST_DISABLE | DMA_IRQ_DISABLE | 8192) & LENGTH_MASK == 8192;
  }

  // A bus address survives being written in two halves.
  lemma SplitAndJoin(h: bv64)
    ensures h >> 32 < 0x1_0000_0000 && h & 0xffff_ffff < 0x1_0000_0000
    ensures Join((h >> 32) as bv32, (h & 0xffff_ffff) as bv32) == h
  {
  }
}
