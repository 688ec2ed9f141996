/** The 64-bit buffer count that the interrupt handler rebuilds from the 32-bit
    loop_status register. Counts are unbounded here; a 64-bit one would need
    2^63 buffers to overflow. */
module Counter {
  import opened Config
  import opened Bits

  // loop_status repeats after 256 * 2^16 buffers.
  const PERIOD: nat := 0x100_0000

  // ((~(DMA_BUFFER_COUNT - 1) << 16) & 0xffffffffffff0000), as a signed number.
  const COUNT_MASK: int := -0x100_0000

  // The register: loops of the table in the high half, index in the low half.
  function LoopStatus(done: nat): nat {
    done / BUFFER_COUNT % 0x1_0000 * 0x1_0000 + done % BUFFER_COUNT
  }

  // What the handler makes of a sample: mask, or, correct a wrap.
  function Reconstruct(hw: nat, last: nat, status: nat): nat {
    var kept := And(hw, COUNT_MASK);
    var merged := Or(kept, status / 0x1_0000 * BUFFER_COUNT + And(status, 0xffff));
    if last > merged then merged + PERIOD else merged
  }

  // The register carries the true count modulo its period.
  lemma StatusCarriesLowBits(done: nat)
    ensures var s := LoopStatus(done);
            s / 0x1_0000 * BUFFER_COUNT + And(s, 0xffff) == done % PERIOD
  {
    hide And, Pow2;
    Pow2Values();
    AndKeepsLow(LoopStatus(done), 16);
    var loops := done / BUFFER_COUNT;
    assert loops == loops / 0x1_0000 * 0x1_0000 + loops % 0x1_0000;
    DivModUnique(done, PERIOD, loops / 0x1_0000, loops % 0x1_0000 * BUFFER_COUNT + done % BUFFER_COUNT);
  }

  // The handler computes the least count that is not below the previous one
  // and agrees with the register.
  lemma ReconstructIsLeast(last: nat, done: nat)
    ensures var n := Reconstruct(last, last, LoopStatus(done));
            last <= n < last + PERIOD && n % PERIOD == done % PERIOD
  {
    hide And, Or, Pow2, LoopStatus;
    var low := done % PERIOD;
    Pow2Values();
    StatusCarriesLowBits(done);
    AndClearsLow(last, 24);
    OrDisjoint(last / PERIOD, low, 24);
    var merged := last / PERIOD * PERIOD + low;
    DivModUnique(merged, PERIOD, last / PERIOD, low);
    DivModUnique(merged + PERIOD, PERIOD, last / PERIOD + 1, low);
  }

  // So it advances by the true advance modulo the period, never past the true
  // count, and is exact iff fewer than 2^24 buffers completed since.
  lemma ReconstructAdvance(last: nat, done: nat)
    requires last <= done
    ensures var n := Reconstruct(last, last, LoopStatus(done));
            && n == last + (done - last) % PERIOD
            && last <= n <= done
            && (n == done <==> done - last < PERIOD)
  {
    hide Reconstruct;
    ReconstructIsLeast(last, done);
    var n := Reconstruct(last, last, LoopStatus(done));
    var k := done / PERIOD - n / PERIOD;
    assert done - n == PERIOD * k;
    DivModUnique(done - last, PERIOD, k, n - last);
  }

  lemma CongruentApart(a: nat, b: nat)
    requires a < b && a % PERIOD == b % PERIOD
    ensures a + PERIOD <= b
  {
  }

  // The handler stores the count three times. Whoever reads it in between, on another
  // processor, sees at most the final value ...
  lemma MidwayNeverAhead(last: nat, done: nat)
    requires last <= done
    ensures var s := LoopStatus(done);
            var kept := And(last, COUNT_MASK);
            var merged := Or(kept, s / 0x1_0000 * BUFFER_COUNT + And(s, 0xffff));
            && kept == last - last % PERIOD && merged == kept + done % PERIOD
            && kept <= merged <= Reconstruct(last, last, s) <= done
  {
    hide And, Or, Pow2, LoopStatus;
    Pow2Values();
    StatusCarriesLowBits(done);
    AndClearsLow(last, 24);
    OrDisjoint(last / PERIOD, done % PERIOD, 24);
    ReconstructAdvance(last, done);
  }

  // ... but one so low that a reader already too far behind passes the margin test iff
  // its position is within the margin of the last multiple of the period.
  lemma MidwayFoolsMarginIff(last: nat, sw: nat)
    requires last - sw > MARGIN
    ensures And(last, COUNT_MASK) - sw <= MARGIN <==> last / PERIOD * PERIOD <= sw + MARGIN
  {
    hide And, Pow2;
    Pow2Values();
    AndClearsLow(last, 24);
  }
}
